/** The state of a video stream and what its operations do to it. */
module VideoState {
  import opened Basics
  import opened Geometry
  import opened MonitorLayout
  import opened Topology
  import opened GraphicsChannel

  datatype VideoFrame = VideoFrame(size: Size, outputIndex: int, dataSize: nat)

  datatype Surface = Surface(id: uint16, size: Size)

  datatype State = State(
    sessionClosed: bool,
    capsConfirmed: bool,
    enabled: bool,
    pendingReset: bool,
    surfaces: seq<Surface>,
    nextSurfaceId: uint16,
    frameQueue: seq<VideoFrame>,
    monitorLayout: Layout,
    frameId: uint32,
    encodedFrames: int32,
    pendingFrames: set<uint32>,
    frameDelay: int32,
    wire: seq<Pdu>)
  {
    function Send(p: Pdu): State {
      this.(wire := wire + [p])
    }

    /** What the client holds after everything sent so far. */
    function Peer(): Client {
      ReceiveAll(NEW_CLIENT, wire)
    }
  }

  const INITIAL := State(false, false, false, true, [], 1, [], [], 0, 0, {}, 0, [])

  /** The two's complement value of the low 32 bits. */
  function ToInt32(x: int): int32 {
    var low := x % 0x1_0000_0000;
    if low < 0x8000_0000 then low else low - 0x1_0000_0000
  }

  // Capabilities.

  predicate AnyUsable(sets: seq<CapSet>) {
    exists i :: 0 <= i < |sets| && sets[i].Usable()
  }

  /** The position std::max_element answers: the first of those with the highest version. */
  function Highest(sets: seq<CapSet>, n: nat): (i: nat)
    requires 0 < n <= |sets|
    ensures i < n
    ensures forall k :: 0 <= k < n ==> sets[k].version <= sets[i].version
    ensures forall k :: 0 <= k < i ==> sets[k].version < sets[i].version
  {
    if n == 1 then 0
    else
      var before := Highest(sets, n - 1);
      if sets[before].version < sets[n - 1].version then n - 1 else before
  }

  function ConfirmCaps(s: State, confirmed: CapSet): State {
    s.Send(CapsConfirm(confirmed)).(capsConfirmed := true)
  }

  /** If any set advertised is usable, the first of the highest version is confirmed; otherwise the session is
      closed. */
  function AdvertiseCaps(s: State, sets: seq<CapSet>): State {
    if !AnyUsable(sets) then s.(sessionClosed := true) else ConfirmCaps(s, sets[Highest(sets, |sets|)])
  }

  // Frames and layouts coming in.

  function QueueFrame(s: State, frame: VideoFrame, streaming: bool): State {
    if !streaming || !s.enabled then s else s.(frameQueue := s.frameQueue + [frame])
  }

  function SetMonitorLayout(s: State, layout: Layout): State {
    if s.monitorLayout == layout then s
    else s.(monitorLayout := layout, frameQueue := [], pendingReset := true)
  }

  function Acknowledge(s: State, frameId: uint32, totalFramesDecoded: uint32): State {
    if frameId !in s.pendingFrames then s
    else s.(frameDelay := ToInt32(s.encodedFrames - totalFramesDecoded), pendingFrames := s.pendingFrames - {frameId})
  }

  // Resetting the graphics pipeline.

  /** The layout a reset publishes: the one set, or a single monitor of the frame's size. */
  function EffectiveLayout(layout: Layout, frame: VideoFrame): (r: Layout)
    ensures r != []
  {
    if layout != [] then layout
    else [DisplayMonitor(Point(0, 0), frame.size, Size(-1, -1), 0, 100, 100, true)]
  }

  /** The frame shows one monitor of the layout, or the whole desktop. */
  predicate Fits(layout: Layout, frame: VideoFrame) {
    if frame.outputIndex >= 0 then
      frame.outputIndex < |layout| && layout[frame.outputIndex].size == frame.size
    else
      DesktopGeometry(layout).Extent() == frame.size
  }

  /** The status reported by the `call`-th failing call of a reset; calls beyond the list succeed. A call that
      reports failure sends nothing. */
  predicate Ok(status: seq<bool>, call: nat) {
    call < |status| ==> status[call]
  }

  function DeleteSurfaces(s: State, n: nat): State
    requires n <= |s.surfaces|
  {
    if n == 0 then s else DeleteSurfaces(s, n - 1).Send(DeleteSurface(s.surfaces[n - 1].id))
  }

  function CreateNext(s: State, size: Size): State {
    s.Send(CreateSurface(s.nextSurfaceId, size))
     .(surfaces := s.surfaces + [Surface(s.nextSurfaceId, size)])
     .(nextSurfaceId := (s.nextSurfaceId + 1) % 0x1_0000)
  }

  /** Creates and maps the surfaces from position `index` on, up to the first failure. */
  function CreateOutputs(s: State, outputs: seq<Output>, index: nat, status: seq<bool>): (State, bool)
    requires index <= |outputs|
    decreases |outputs| - index
  {
    if index == |outputs| then (s, true)
    else if !Ok(status, 1 + 2 * index) then (s.(nextSurfaceId := (s.nextSurfaceId + 1) % 0x1_0000), false)
    else
      var created := CreateNext(s, outputs[index].size);
      if !Ok(status, 2 + 2 * index) then (created, false)
      else
        var mapped := created.Send(MapSurfaceToOutput(s.nextSurfaceId, outputs[index].origin));
        CreateOutputs(mapped, outputs, index + 1, status)
  }

  function PerformReset(s: State, layout: Layout, frame: VideoFrame, status: seq<bool>): (State, bool) {
    var effective := EffectiveLayout(layout, frame);
    if !Fits(effective, frame) then (s, false)
    else
      var cleared := DeleteSurfaces(s, |s.surfaces|).(surfaces := []);
      if !Ok(status, 0) then (cleared, false)
      else CreateOutputs(cleared.Send(ResetGraphics(DesktopOf(effective))),
                         Outputs(effective, frame.outputIndex >= 0), 0, status)
  }

  // Submitting a frame.

  function SurfaceIndex(frame: VideoFrame): nat {
    if frame.outputIndex >= 0 then frame.outputIndex else 0
  }

  predicate CanSubmit(s: State, frame: VideoFrame) {
    SurfaceIndex(frame) < |s.surfaces| && s.surfaces[SurfaceIndex(frame)].size == frame.size
  }

  function Submit(s: State, frame: VideoFrame): State {
    if !CanSubmit(s, frame) then s
    else
      s.(frameId := (s.frameId + 1) % 0x1_0000_0000,
         encodedFrames := ToInt32(s.encodedFrames + 1),
         pendingFrames := s.pendingFrames + {s.frameId})
       .Send(StartFrame(s.frameId))
       .Send(SurfaceCommand(s.surfaces[SurfaceIndex(frame)].id, frame.size))
       .Send(EndFrame(s.frameId))
  }

  /** sendFrame without interference: the reset if one is pending, then the frame. */
  function SendFrame(s: State, frame: VideoFrame, status: seq<bool>): State {
    if !s.capsConfirmed || frame.dataSize == 0 then s
    else if !s.pendingReset then Submit(s, frame)
    else
      var (reset, ok) := PerformReset(s, s.monitorLayout, frame, status);
      if ok then Submit(reset.(pendingReset := false), frame) else reset
  }

  /** One turn of the submission loop: the oldest queued frame is taken, and sent unless its size is empty. */
  function SubmissionTurn(s: State, status: seq<bool>): State {
    if s.frameQueue == [] then s
    else
      var frame, taken := s.frameQueue[0], s.(frameQueue := s.frameQueue[1..]);
      if frame.size.IsEmpty() then taken else SendFrame(taken, frame, status)
  }
}

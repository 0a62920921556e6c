/** The video stream object. Every method is specified by the function of VideoState that describes its effect. */
module VideoStreams {
  import opened Basics
  import opened Geometry
  import opened Topology
  import opened GraphicsChannel
  import opened VideoState
  import NetworkState
  import opened NetworkDetections

  /** Network detection after a submission, or without one. */
  ghost function MeasuredIf(submitted: bool, before: NetworkState.State): NetworkState.State {
    if submitted then NetworkState.StopBandwidthMeasure(NetworkState.StartBandwidthMeasure(before)) else before
  }

  /** After a submission the results of a measurement are awaited, and it was started and stopped unless one was under
      way already; without a submission nothing was measured. */
  lemma MeasurementEnclosesAFrame(submitted: bool, before: NetworkState.State)
    requires before.bandwidthState in {NetworkState.NoMeasure, NetworkState.PendingResults}
    ensures MeasuredIf(submitted, before) ==
            if submitted && before.bandwidthState == NetworkState.NoMeasure
            then before.(bandwidthState := NetworkState.PendingResults,
                         log := before.log + [NetworkState.BandwidthStart, NetworkState.BandwidthStop])
            else before
  {
    var measured := MeasuredIf(submitted, before);
    assert [NetworkState.BandwidthStart] + [NetworkState.BandwidthStop]
        == [NetworkState.BandwidthStart, NetworkState.BandwidthStop];
    assert |measured.log| == |before.log| + 2 ==>
      measured.log == before.log + [NetworkState.BandwidthStart, NetworkState.BandwidthStop];
  }

  class VideoStream {
    const network: NetworkDetection
    var sessionClosed: bool  // whether the stream closed its session
    var capsConfirmed: bool
    var enabled: bool
    var pendingReset: bool
    var surfaces: seq<Surface>
    var nextSurfaceId: uint16
    var frameQueue: seq<VideoFrame>
    var monitorLayout: Layout
    var frameId: uint32
    var encodedFrames: int32
    var pendingFrames: set<uint32>
    var frameDelay: int32
    ghost var wire: seq<Pdu>  // everything the graphics channel delivered to the client

    ghost function Model(): State
      reads this
    {
      State(sessionClosed, capsConfirmed, enabled, pendingReset, surfaces, nextSurfaceId, frameQueue, monitorLayout,
            frameId, encodedFrames, pendingFrames, frameDelay, wire)
    }

    constructor (network: NetworkDetection)
      ensures this.network == network && Model() == INITIAL
    {
      this.network := network;
      sessionClosed, capsConfirmed, enabled, pendingReset := false, false, false, true;
      surfaces, nextSurfaceId := [], 1;
      frameQueue, monitorLayout := [], [];
      frameId, encodedFrames, pendingFrames, frameDelay := 0, 0, {}, 0;
      wire := [];
    }

    method SetEnabled(on: bool)
      modifies this
      ensures Model() == old(Model()).(enabled := on)
    {
      enabled := on;
    }

    method QueueFrame(frame: VideoFrame, streaming: bool)
      modifies this
      ensures Model() == VideoState.QueueFrame(old(Model()), frame, streaming)
    {
      if !streaming || !enabled {
        return;
      }
      frameQueue := frameQueue + [frame];
    }

    method SetMonitorLayout(monitors: Layout)
      modifies this
      ensures Model() == VideoState.SetMonitorLayout(old(Model()), monitors)
    {
      if monitorLayout == monitors {
        return;
      }
      monitorLayout := monitors;
      frameQueue := [];
      Reset();
    }

    method Reset()
      modifies this
      ensures Model() == old(Model()).(pendingReset := true)
    {
      pendingReset := true;
    }

    /** Confirms the first advertised set of the highest version if any is usable; otherwise closes the session. */
    method OnCapsAdvertise(sets: seq<CapSet>) returns (ok: bool)
      modifies this
      ensures ok <==> AnyUsable(sets)
      ensures Model() == AdvertiseCaps(old(Model()), sets)
    {
      ok := false;
      for i := 0 to |sets|
        invariant ok <==> exists k :: 0 <= k < i && sets[k].Usable()
        invariant Model() == old(Model())
      {
        ok := ok || sets[i].Usable();
      }
      if !ok {
        sessionClosed := true;
        return;
      }
      var highest: nat := 0;
      for i := 1 to |sets|
        invariant highest == Highest(sets, i)
        invariant Model() == old(Model())
      {
        if sets[highest].version < sets[i].version {
          highest := i;
        }
      }
      wire := wire + [CapsConfirm(sets[highest])];
      capsConfirmed := true;
    }

    method OnFrameAcknowledge(id: uint32, totalFramesDecoded: uint32)
      modifies this
      ensures Model() == Acknowledge(old(Model()), id, totalFramesDecoded)
    {
      if id !in pendingFrames {
        return;
      }
      frameDelay := ToInt32(encodedFrames - totalFramesDecoded);
      pendingFrames := pendingFrames - {id};
    }

    /** The submission thread's take: the oldest queued frame, if there is one. */
    method TakeFrame() returns (frame: Option<VideoFrame>)
      modifies this
      ensures if old(frameQueue) == [] then frame == None && Model() == old(Model())
              else frame == Some(old(frameQueue)[0]) && Model() == old(Model()).(frameQueue := old(frameQueue)[1..])
    {
      if frameQueue == [] {
        return None;
      }
      frame := Some(frameQueue[0]);
      frameQueue := frameQueue[1..];
    }

    /** One turn of the submission thread's loop. */
    method SubmissionTurn(status: seq<bool>)
      modifies this, network
      ensures Model() == VideoState.SubmissionTurn(old(Model()), status)
      ensures network.Model() == MeasuredIf(frameId != old(frameId), old(network.Model()))
    {
      var frame := TakeFrame();
      if frame.None? || frame.value.size.IsEmpty() {
        return;
      }
      SendFrame(frame.value, status);
    }

    method PerformReset(frame: VideoFrame, status: seq<bool>) returns (ok: bool)
      modifies this`wire, this`surfaces, this`nextSurfaceId
      ensures (Model(), ok) == VideoState.PerformReset(old(Model()), old(monitorLayout), frame, status)
    {
      var layout := EffectiveLayout(monitorLayout, frame);
      var desktopGeometry := NULL_RECT;
      for i := 0 to |layout|
        invariant desktopGeometry == UnitedFirst(AreasOf(layout), i)
        invariant Model() == old(Model())
      {
        desktopGeometry := desktopGeometry.United(layout[i].Area());
      }
      var perOutput := frame.outputIndex >= 0;
      if perOutput && (frame.outputIndex >= |layout| || layout[frame.outputIndex].size != frame.size) {
        return false;
      }
      if !perOutput && desktopGeometry.Extent() != frame.size {
        return false;
      }

      DeleteAllSurfaces();
      var monitorDefinitions := MonitorDefinitions(layout);
      if !Ok(status, 0) {
        return false;
      }
      wire := wire + [ResetGraphics(Desktop(desktopGeometry.Width(), desktopGeometry.Height(), monitorDefinitions))];
      ok := CreateAndMapSurfaces(Outputs(layout, perOutput), status);
    }

    /** The loop that lists the monitors for ResetGraphics. */
    static method MonitorDefinitions(layout: Layout) returns (defs: seq<MonitorDef>)
      ensures defs == DesktopOf(layout).monitors
    {
      defs := [];
      for i := 0 to |layout|
        invariant |defs| == i && forall k :: 0 <= k < i ==> defs[k] == DefOf(layout[k])
      {
        defs := defs + [DefOf(layout[i])];
      }
    }

    method DeleteAllSurfaces()
      modifies this`wire, this`surfaces
      ensures Model() == DeleteSurfaces(old(Model()), |old(surfaces)|).(surfaces := [])
    {
      for i := 0 to |surfaces|
        invariant surfaces == old(surfaces)
        invariant Model() == DeleteSurfaces(old(Model()), i)
      {
        wire := wire + [DeleteSurface(surfaces[i].id)];
      }
      surfaces := [];
    }

    method CreateAndMapSurfaces(outputs: seq<Output>, status: seq<bool>) returns (ok: bool)
      modifies this`wire, this`surfaces, this`nextSurfaceId
      ensures (Model(), ok) == CreateOutputs(old(Model()), outputs, 0, status)
    {
      for index := 0 to |outputs|
        invariant CreateOutputs(Model(), outputs, index, status) == CreateOutputs(old(Model()), outputs, 0, status)
      {
        var surfaceId := nextSurfaceId;
        nextSurfaceId := (nextSurfaceId + 1) % 0x1_0000;
        if !Ok(status, 1 + 2 * index) {
          return false;
        }
        wire := wire + [CreateSurface(surfaceId, outputs[index].size)];
        surfaces := surfaces + [Surface(surfaceId, outputs[index].size)];
        if !Ok(status, 2 + 2 * index) {
          return false;
        }
        wire := wire + [MapSurfaceToOutput(surfaceId, outputs[index].origin)];
      }
      return true;
    }

    /** The bandwidth is measured around the frame, exactly if one is numbered and sent. */
    method SendFrame(frame: VideoFrame, status: seq<bool>)
      modifies this, network
      ensures Model() == VideoState.SendFrame(old(Model()), frame, status)
      ensures network.Model() == MeasuredIf(frameId != old(frameId), old(network.Model()))
    {
      if !capsConfirmed || frame.dataSize == 0 {
        return;
      }
      if pendingReset {
        var ok := PerformReset(frame, status);
        if !ok {
          return;
        }
        pendingReset := false;
      }
      Submit(frame);
    }

    /** The part of sendFrame after the reset. */
    method Submit(frame: VideoFrame)
      modifies this, network
      ensures Model() == VideoState.Submit(old(Model()), frame)
      ensures frameId != old(frameId) <==> CanSubmit(old(Model()), frame)
      ensures network.Model() == MeasuredIf(frameId != old(frameId), old(network.Model()))
    {
      var surfaceIndex := if frame.outputIndex >= 0 then frame.outputIndex else 0;
      if surfaceIndex >= |surfaces| || surfaces[surfaceIndex].size != frame.size {
        return;
      }
      network.StartBandwidthMeasure();
      Paint(frame, surfaces[surfaceIndex].id);
      network.StopBandwidthMeasure();
    }

    /** Numbers the frame and sends its PDUs. */
    method Paint(frame: VideoFrame, surfaceId: uint16)
      requires CanSubmit(Model(), frame) && surfaceId == surfaces[SurfaceIndex(frame)].id
      modifies this`frameId, this`encodedFrames, this`pendingFrames, this`wire
      ensures Model() == VideoState.Submit(old(Model()), frame)
    {
      var id := frameId;
      frameId := (frameId + 1) % 0x1_0000_0000;
      encodedFrames := ToInt32(encodedFrames + 1);
      pendingFrames := pendingFrames + {id};
      wire := wire + [StartFrame(id)];
      wire := wire + [SurfaceCommand(surfaceId, frame.size)];
      wire := wire + [EndFrame(id)];
    }
  }
}

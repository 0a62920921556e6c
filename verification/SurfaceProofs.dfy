/** One operation at a time: what a reset and a submission do to the client, whatever calls fail. */
module SurfaceProofs {
  import opened Basics
  import opened Geometry
  import opened Topology
  import opened GraphicsChannel
  import opened VideoState

  const ID_SPACE := 0x1_0000

  /** The ids follow each other, wrapping around the 16-bit counter. */
  ghost predicate Consecutive(surfaces: seq<Surface>) {
    forall i :: 0 <= i < |surfaces| ==> surfaces[i].id == (surfaces[0].id + i) % ID_SPACE
  }

  ghost predicate DistinctIds(surfaces: seq<Surface>) {
    forall i, j :: 0 <= i < j < |surfaces| ==> surfaces[i].id != surfaces[j].id
  }

  lemma WrapsApart(start: nat, i: nat, j: nat)
    requires i < j
    ensures j < i + ID_SPACE ==> (start + i) % ID_SPACE != (start + j) % ID_SPACE
    ensures j == i + ID_SPACE ==> (start + i) % ID_SPACE == (start + j) % ID_SPACE
  {
  }

  /** Consecutive ids are pairwise distinct exactly as long as there are no more than the id space holds. */
  lemma DistinctIffFewEnough(surfaces: seq<Surface>)
    requires Consecutive(surfaces)
    ensures DistinctIds(surfaces) <==> |surfaces| <= ID_SPACE
  {
    if |surfaces| <= ID_SPACE {
      forall i, j | 0 <= i < j < |surfaces|
        ensures surfaces[i].id != surfaces[j].id
      {
        WrapsApart(surfaces[0].id, i, j);
      }
    } else {
      WrapsApart(surfaces[0].id, 0, ID_SPACE);
      assert surfaces[0].id == surfaces[ID_SPACE].id;
    }
  }

  /** The client's surfaces are exactly the listed ones from position `n` on. */
  ghost predicate Mirrors(c: Client, surfaces: seq<Surface>, n: nat) {
    && (forall i :: n <= i < |surfaces| ==>
          surfaces[i].id in c.surfaces && c.surfaces[surfaces[i].id] == surfaces[i].size)
    && (forall id :: id in c.surfaces ==> exists i :: n <= i < |surfaces| && surfaces[i].id == id)
  }

  /** The listed surfaces are the first of `outputs`, at their sizes and places. */
  ghost predicate Placed(c: Client, surfaces: seq<Surface>, outputs: seq<Output>) {
    && |surfaces| <= |outputs|
    && forall i :: 0 <= i < |surfaces| ==>
         && surfaces[i].size == outputs[i].size
         && surfaces[i].id in c.mapped
         && c.mapped[surfaces[i].id] == outputs[i].origin
  }

  /** Everything sent was in order and the client holds exactly the surfaces the server lists. */
  ghost predicate Coherent(s: State) {
    && AllInOrder(NEW_CLIENT, s.wire)
    && s.Peer().openFrame.None?
    && s.Peer().capsConfirmed == s.capsConfirmed
    && Mirrors(s.Peer(), s.surfaces, 0)
    && AllCreated(s.Peer(), s.surfaces)
    && Consecutive(s.surfaces)
    && |s.surfaces| <= ID_SPACE
  }

  /** All these surfaces were created since the last reset. */
  ghost predicate AllCreated(c: Client, surfaces: seq<Surface>) {
    forall i :: 0 <= i < |surfaces| ==> surfaces[i].id in c.created
  }

  /** `t` differs from `s` only in its surfaces, and no frame was sent in between. */
  ghost predicate OnlySurfacesChanged(s: State, t: State) {
    && t == s.(surfaces := t.surfaces, nextSurfaceId := t.nextSurfaceId, wire := t.wire)
    && StartedFrames(t.wire) == StartedFrames(s.wire)
    && PaintedSizes(t.wire) == PaintedSizes(s.wire)
  }

  /** What deleting the first `n` surfaces leaves at the client. */
  ghost predicate Deleted(s: State, t: State, n: nat) {
    && t == s.(wire := t.wire) && OnlySurfacesChanged(s, t)
    && AllInOrder(NEW_CLIENT, t.wire)
    && t.Peer().openFrame.None? && t.Peer().capsConfirmed
    && Mirrors(t.Peer(), s.surfaces, n)
  }

  lemma DeletesOne(s: State, t: State, n: nat, u: State)
    requires n < |s.surfaces| && DistinctIds(s.surfaces) && Deleted(s, t, n)
    requires u == t.Send(DeleteSurface(s.surfaces[n].id))
    ensures Deleted(s, u, n + 1)
  {
  }

  lemma {:induction false} DeletesInOrder(s: State, n: nat)
    requires Deleted(s, s, 0) && DistinctIds(s.surfaces) && n <= |s.surfaces|
    ensures Deleted(s, DeleteSurfaces(s, n), n)
  {
    if n > 0 {
      DeletesInOrder(s, n - 1);
      DeletesNext(s, n - 1);
    } else {
      DeletesNone(s, n);
    }
  }

  lemma DeletesNone(s: State, n: nat)
    requires n == 0
    ensures DeleteSurfaces(s, n) == s
  {
  }

  lemma DeletesNext(s: State, n: nat)
    requires DistinctIds(s.surfaces) && n < |s.surfaces| && Deleted(s, DeleteSurfaces(s, n), n)
    ensures Deleted(s, DeleteSurfaces(s, n + 1), n + 1)
  {
    DeletesOne(s, DeleteSurfaces(s, n), n, DeleteSurfaces(s, n + 1));
  }

  /** Midway through a reset: the first surfaces of `outputs` are created and mapped, and the next id is unused. */
  ghost predicate Building(s: State, outputs: seq<Output>) {
    && Coherent(s) && s.capsConfirmed && s.Peer().desktop.Some?
    && Placed(s.Peer(), s.surfaces, outputs) && |outputs| <= ID_SPACE
    && NextFollows(s)
  }

  ghost predicate NextFollows(s: State) {
    s.surfaces != [] ==> s.nextSurfaceId == (s.surfaces[0].id + |s.surfaces|) % ID_SPACE
  }

  lemma NextIdIsFree(s: State, size: Size)
    requires Consecutive(s.surfaces) && NextFollows(s) && |s.surfaces| < ID_SPACE
    ensures forall i :: 0 <= i < |s.surfaces| ==> s.surfaces[i].id != s.nextSurfaceId
    ensures Consecutive(CreateNext(s, size).surfaces) && NextFollows(CreateNext(s, size))
  {
  }

  lemma CreatesNext(s: State, size: Size)
    requires Coherent(s) && s.capsConfirmed && s.Peer().desktop.Some?
    requires |s.surfaces| < ID_SPACE && NextFollows(s)
    ensures var t := CreateNext(s, size);
            && OnlySurfacesChanged(s, t) && Coherent(t) && NextFollows(t)
            && t.Peer() == Receive(s.Peer(), CreateSurface(s.nextSurfaceId, size))
  {
    var id, create, t := s.nextSurfaceId, CreateSurface(s.nextSurfaceId, size), CreateNext(s, size);
    NextIdIsFree(s, size);
    Sent(NEW_CLIENT, s.wire, create);
    assert t.Peer() == Receive(s.Peer(), create);
    MirrorsNext(s.Peer(), s.surfaces, Surface(id, size));
    CreateInOrder(s.Peer(), s.surfaces, id, size);
  }

  lemma PlacesNext(c: Client, surfaces: seq<Surface>, outputs: seq<Output>, origin: Point)
    requires surfaces != [] && DistinctIds(surfaces)
    requires |surfaces| <= |outputs| && outputs[|surfaces| - 1] == Output(surfaces[|surfaces| - 1].size, origin)
    requires Placed(c, surfaces[..|surfaces| - 1], outputs)
    ensures Placed(Receive(c, MapSurfaceToOutput(surfaces[|surfaces| - 1].id, origin)), surfaces, outputs)
  {
    var front := surfaces[..|surfaces| - 1];
    assert forall i :: 0 <= i < |front| ==> front[i] == surfaces[i];
  }

  lemma MapsNext(s: State, outputs: seq<Output>, origin: Point)
    requires s.surfaces != [] && Coherent(s) && s.capsConfirmed && s.Peer().desktop.Some?
    requires |outputs| <= ID_SPACE && NextFollows(s)
    requires |s.surfaces| <= |outputs| && outputs[|s.surfaces| - 1] == Output(s.surfaces[|s.surfaces| - 1].size, origin)
    requires Placed(s.Peer(), s.surfaces[..|s.surfaces| - 1], outputs)
    ensures var t := s.Send(MapSurfaceToOutput(s.surfaces[|s.surfaces| - 1].id, origin));
            && OnlySurfacesChanged(s, t) && Building(t, outputs)
            && t.Peer().desktop == s.Peer().desktop
  {
    MapInOrder(s, |s.surfaces| - 1, origin);
    DistinctIffFewEnough(s.surfaces);
    PlacesNext(s.Peer(), s.surfaces, outputs, origin);
  }

  lemma MapInOrder(s: State, index: nat, origin: Point)
    requires Coherent(s) && s.capsConfirmed && index < |s.surfaces|
    ensures var place := MapSurfaceToOutput(s.surfaces[index].id, origin);
            && OnlySurfacesChanged(s, s.Send(place)) && Coherent(s.Send(place))
            && s.Send(place).Peer() == Receive(s.Peer(), place)
  {
    var place := MapSurfaceToOutput(s.surfaces[index].id, origin);
    Sent(NEW_CLIENT, s.wire, place);
    assert s.Send(place).Peer() == Receive(s.Peer(), place);
  }

  lemma MirrorsNext(c: Client, surfaces: seq<Surface>, next: Surface)
    requires Mirrors(c, surfaces, 0)
    requires forall i :: 0 <= i < |surfaces| ==> surfaces[i].id != next.id
    ensures Mirrors(Receive(c, CreateSurface(next.id, next.size)), surfaces + [next], 0)
  {
    var all := surfaces + [next];
    forall id | id in Receive(c, CreateSurface(next.id, next.size)).surfaces
      ensures exists i :: 0 <= i < |all| && all[i].id == id
    {
      if id == next.id {
        assert all[|surfaces|].id == id;
      } else {
        var i :| 0 <= i < |surfaces| && surfaces[i].id == id;
        assert all[i].id == id;
      }
    }
  }

  lemma CreateInOrder(c: Client, surfaces: seq<Surface>, id: nat, size: Size)
    requires Mirrors(c, surfaces, 0) && c.capsConfirmed && c.openFrame.None? && c.desktop.Some?
    requires forall i :: 0 <= i < |surfaces| ==> surfaces[i].id != id
    ensures InOrder(c, CreateSurface(id, size))
  {
  }

  lemma BuildsNext(s: State, outputs: seq<Output>)
    requires Building(s, outputs) && |s.surfaces| < |outputs|
    ensures var output := outputs[|s.surfaces|];
            var created := CreateNext(s, output.size);
            var mapped := created.Send(MapSurfaceToOutput(s.nextSurfaceId, output.origin));
            && OnlySurfacesChanged(s, created) && Coherent(created)
            && OnlySurfacesChanged(s, mapped) && Building(mapped, outputs)
            && |mapped.surfaces| == |s.surfaces| + 1
            && mapped.Peer().desktop == s.Peer().desktop
  {
    var output := outputs[|s.surfaces|];
    var created := CreateNext(s, output.size);
    CreatesNext(s, output.size);
    assert created.surfaces[..|s.surfaces|] == s.surfaces;
    MapsNext(created, outputs, output.origin);
  }

  lemma {:induction false} CreatesInOrder(s: State, outputs: seq<Output>, status: seq<bool>)
    requires Building(s, outputs)
    ensures var (t, ok) := CreateOutputs(s, outputs, |s.surfaces|, status);
            && OnlySurfacesChanged(s, t) && Coherent(t)
            && (ok ==> |t.surfaces| == |outputs| && Building(t, outputs) && t.Peer().desktop == s.Peer().desktop)
    decreases |outputs| - |s.surfaces|
  {
    var n := |s.surfaces|;
    if n < |outputs| && Ok(status, 1 + 2 * n) {
      BuildsNext(s, outputs);
      if Ok(status, 2 + 2 * n) {
        var created := CreateNext(s, outputs[n].size);
        CreatesInOrder(created.Send(MapSurfaceToOutput(s.nextSurfaceId, outputs[n].origin)), outputs, status);
      }
    }
  }

  /** The client shows `layout`: its desktop was the last one published, and the surfaces are the monitors in list
      order, or one surface for the whole desktop. */
  ghost predicate Shows(c: Client, surfaces: seq<Surface>, layout: Layout) {
    && layout != []
    && c.desktop == Some(DesktopOf(layout))
    && exists perOutput: bool :: ShowsAs(c, surfaces, layout, perOutput)
  }

  ghost predicate ShowsAs(c: Client, surfaces: seq<Surface>, layout: Layout, perOutput: bool)
    requires layout != []
  {
    |surfaces| == OutputCount(layout, perOutput) && Placed(c, surfaces, Outputs(layout, perOutput))
  }

  /** A reset, whatever calls fail in it, leaves the client holding exactly the listed surfaces. If it succeeds,
      the client shows the layout it published, in the manner the frame asked for. */
  lemma ResetKeepsClientInStep(s: State, layout: Layout, frame: VideoFrame, status: seq<bool>)
    requires Coherent(s) && s.capsConfirmed && |layout| <= ID_SPACE
    ensures var (t, ok) := PerformReset(s, layout, frame, status);
            var effective := EffectiveLayout(layout, frame);
            && Coherent(t) && OnlySurfacesChanged(s, t)
            && (ok ==> Fits(effective, frame) && t.Peer().desktop == Some(DesktopOf(effective))
                       && ShowsAs(t.Peer(), t.surfaces, effective, frame.outputIndex >= 0))
            && (!Fits(effective, frame) ==> t == s && !ok)
  {
    var effective := EffectiveLayout(layout, frame);
    if Fits(effective, frame) {
      ClearsInOrder(s);
      var cleared := DeleteSurfaces(s, |s.surfaces|).(surfaces := []);
      if Ok(status, 0) {
        var outputs := Outputs(effective, frame.outputIndex >= 0);
        ResetInOrder(cleared, DesktopOf(effective), outputs);
        CreatesInOrder(cleared.Send(ResetGraphics(DesktopOf(effective))), outputs, status);
      }
    }
  }

  lemma ClearsInOrder(s: State)
    requires Coherent(s) && s.capsConfirmed
    ensures var cleared := DeleteSurfaces(s, |s.surfaces|).(surfaces := []);
            OnlySurfacesChanged(s, cleared) && Coherent(cleared)
  {
    DistinctIffFewEnough(s.surfaces);
    DeletesInOrder(s, |s.surfaces|);
    assert Mirrors(DeleteSurfaces(s, |s.surfaces|).(surfaces := []).Peer(), [], 0);
  }

  lemma ResetInOrder(s: State, desktop: Desktop, outputs: seq<Output>)
    requires Coherent(s) && s.capsConfirmed && s.surfaces == [] && |outputs| <= ID_SPACE
    ensures var reset := s.Send(ResetGraphics(desktop));
            && OnlySurfacesChanged(s, reset) && Building(reset, outputs)
            && reset.Peer().desktop == Some(desktop)
  {
    Sent(NEW_CLIENT, s.wire, ResetGraphics(desktop));
    assert s.Send(ResetGraphics(desktop)).Peer() == Receive(s.Peer(), ResetGraphics(desktop));
  }

  lemma SubmitSends(s: State, frame: VideoFrame)
    requires CanSubmit(s, frame)
    ensures var wire := Submit(s, frame).wire;
            |wire| >= 2 && wire[|wire| - 2] == SurfaceCommand(s.surfaces[SurfaceIndex(frame)].id, frame.size)
    ensures Submit(s, frame).Peer().mapped == s.Peer().mapped
    ensures StartedFrames(Submit(s, frame).wire) == StartedFrames(s.wire) + [s.frameId]
    ensures PaintedSizes(Submit(s, frame).wire) == PaintedSizes(s.wire) + [frame.size]
  {
    FrameSent(NEW_CLIENT, s.wire, s.frameId, s.surfaces[SurfaceIndex(frame)].id, frame.size);
  }

  ghost predicate AllMapped(c: Client, surfaces: seq<Surface>) {
    forall i :: 0 <= i < |surfaces| ==> surfaces[i].id in c.mapped
  }

  /** The client shows some layout on these surfaces. */
  ghost predicate ShowsSome(c: Client, surfaces: seq<Surface>) {
    exists layout :: Shows(c, surfaces, layout)
  }

  lemma ShownSurfaceIsOnDesktop(c: Client, surfaces: seq<Surface>, index: nat)
    requires ShowsSome(c, surfaces) && index < |surfaces|
    ensures surfaces[index].id in c.mapped
    ensures OnDesktop(c.desktop, Output(surfaces[index].size, c.mapped[surfaces[index].id]))
  {
    var layout :| Shows(c, surfaces, layout);
    var perOutput: bool :| ShowsAs(c, surfaces, layout, perOutput);
    assert Outputs(layout, perOutput)[index] == Output(surfaces[index].size, c.mapped[surfaces[index].id]);
  }

  /** A submission is in order, and paints a surface of exactly the frame's size inside a frame of its own. */
  lemma SubmitInOrder(s: State, frame: VideoFrame)
    requires Coherent(s) && s.capsConfirmed && ShowsSome(s.Peer(), s.surfaces)
    ensures Coherent(Submit(s, frame)) && Submit(s, frame).Peer() == s.Peer()
  {
    if CanSubmit(s, frame) {
      ShownSurfaceIsOnDesktop(s.Peer(), s.surfaces, SurfaceIndex(frame));
      FrameSent(NEW_CLIENT, s.wire, s.frameId, s.surfaces[SurfaceIndex(frame)].id, frame.size);
    }
  }
}

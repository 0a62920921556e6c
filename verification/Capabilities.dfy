/** The answer to the client's capabilities, and whether it is one the server can use. */
module Capabilities {
  import opened GraphicsChannel
  import opened VideoRuns

  /** The set offers H.264 in YUV420 (MS-RDPEGFX, section 2.2.3): version 10.4, 10.5, 10.6 or 10.7 without the flag that
      disables AVC, or version 8.1 with the flag that enables AVC420. */
  predicate OffersH264(c: CapSet) {
    || (c.version in {0x000A0400, 0x000A0502, 0x000A0600, 0x000A0701} && !c.avcDisabled)
    || (c.version == 0x00080105 && c.avc420Enabled)
  }

  lemma UsableMeansH264(c: CapSet)
    ensures c.Usable() <==> OffersH264(c)
  {
  }

  /** The first set of the highest version. */
  predicate IsFirstHighest(sets: seq<CapSet>, i: nat) {
    && i < |sets|
    && (forall k :: 0 <= k < |sets| ==> sets[k].version <= sets[i].version)
    && (forall k :: 0 <= k < i ==> sets[k].version < sets[i].version)
  }

  /** If any set offers H.264, one PDU is sent, and it confirms the first set of the highest version; otherwise nothing
      is sent and the session is closed. Nothing else changes. */
  lemma CapabilitiesAreAnswered(y: System, sets: seq<CapSet>, i: nat)
    requires IsFirstHighest(sets, i)
    ensures var s, z := y.stream, Step(y, Caps(sets));
            z == y.(stream :=
              if exists k :: 0 <= k < |sets| && OffersH264(sets[k])
              then s.(wire := s.wire + [CapsConfirm(sets[i])], capsConfirmed := true)
              else s.(sessionClosed := true))
  {
    forall c: CapSet
      ensures c.Usable() <==> OffersH264(c)
    {
      UsableMeansH264(c);
    }
  }

  /** A client that advertises nothing is turned away. */
  lemma NoCapabilitiesCloseTheSession(y: System)
    ensures Step(y, Caps([])) == y.(stream := y.stream.(sessionClosed := true))
  {
  }

  /** The set confirmed offers H.264 exactly if the highest version advertised is one of 10.4 to 10.7 and its first set
      does not disable AVC, or it is 8.1 and its first set enables AVC420. It never does for 10.0 to 10.3, 8.0, or a
      version the server does not know. */
  lemma ConfirmedSetIsUsableIff(y: System, sets: seq<CapSet>, i: nat)
    requires IsFirstHighest(sets, i) && exists k :: 0 <= k < |sets| && OffersH264(sets[k])
    ensures var wire := Step(y, Caps(sets)).stream.wire;
            && |wire| == |y.stream.wire| + 1 && wire[|wire| - 1].CapsConfirm?
            && (OffersH264(wire[|wire| - 1].confirmed) <==>
                  || (sets[i].version in {0x000A0400, 0x000A0502, 0x000A0600, 0x000A0701} && !sets[i].avcDisabled)
                  || (sets[i].version == 0x00080105 && sets[i].avc420Enabled))
  {
    CapabilitiesAreAnswered(y, sets, i);
  }

  /** A client that offers H.264 by version 8.1 and disables it in version 10.7 is confirmed in version 10.7. */
  lemma UnusableSetMayBeConfirmed(y: System, sets: seq<CapSet>)
    requires sets == [CapSet(0x000A0701, false, true), CapSet(0x00080105, true, false)]
    ensures OffersH264(sets[1]) && !OffersH264(sets[0])
    ensures Step(y, Caps(sets)).stream.wire == y.stream.wire + [CapsConfirm(sets[0])]
  {
    CapabilitiesAreAnswered(y, sets, 0);
  }
}

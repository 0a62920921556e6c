/** The network detection object, specified by the functions of NetworkState. */
module NetworkDetections {
  import opened Basics
  import opened NetworkState
  import opened NumberSearch

  class NetworkDetection {
    var bandwidthState: BandwidthState
    var sequenceNumber: uint32
    var bandwidth: uint32
    var lastRttUpdate: Time
    var rttRequests: map<uint32, Time>
    var rttMeasurements: seq<Measurement>
    var minimumRtt: int
    var averageRtt: int
    var lastNetworkResult: Time
    ghost var log: seq<Happening>

    ghost function Model(): State
      reads this
    {
      State(bandwidthState, sequenceNumber, bandwidth, lastRttUpdate, rttRequests, rttMeasurements,
            minimumRtt, averageRtt, lastNetworkResult, log)
    }

    constructor ()
      ensures Model() == INITIAL
    {
      bandwidthState, sequenceNumber, bandwidth, lastRttUpdate := NoMeasure, 0, 0, 0;
      rttRequests, rttMeasurements, minimumRtt, averageRtt, lastNetworkResult := map[], [], 0, 0, 0;
      log := [];
    }

    method StartBandwidthMeasure()
      modifies this
      ensures Model() == NetworkState.StartBandwidthMeasure(old(Model()))
    {
      if bandwidthState != NoMeasure {
        return;
      }
      bandwidthState := PendingStop;
      log := log + [BandwidthStart];
    }

    method StopBandwidthMeasure()
      modifies this
      ensures Model() == NetworkState.StopBandwidthMeasure(old(Model()))
    {
      if bandwidthState != PendingStop {
        return;
      }
      bandwidthState := PendingResults;
      log := log + [BandwidthStop];
    }

    method NextSequenceNumber() returns (sequence: uint32)
      requires |Blocked(rttRequests)| < NUMBERS
      modifies this`sequenceNumber
      ensures sequence == NextNumber(old(Model()))
      ensures sequenceNumber == Following(sequence)
    {
      sequence := UnusedNumber(sequenceNumber, rttRequests);
      sequenceNumber := (sequence + 1) % NUMBERS;
    }

    /** The loop of the search. It ends because each turn passes a number that is taken, and fewer are taken than there
        are numbers. */
    static method UnusedNumber(start: uint32, requests: map<uint32, Time>) returns (sequence: uint32)
      requires |Blocked(requests)| < NUMBERS
      ensures sequence == FirstFree(start, Blocked(requests))
    {
      sequence := start;
      ghost var blocked := Blocked(requests);
      ghost var left, turns: nat := blocked, 0;
      SearchBegins(start, blocked);
      while sequence == 0 || sequence in requests
        invariant sequence == Ahead(start, turns) && Searching(start, blocked, left, turns)
        decreases |left|
      {
        SearchGoesOn(start, blocked, left, turns);
        left, turns := left - {sequence}, turns + 1;
        sequence := (sequence + 1) % NUMBERS;
      }
      SearchEnds(start, blocked, left, turns);
    }

    method Update(now: Time, streaming: bool)
      requires |Blocked(rttRequests)| < NUMBERS
      modifies this
      ensures Model() == NetworkState.Update(old(Model()), now, streaming)
    {
      if !streaming || now - lastRttUpdate < RTT_UPDATE_INTERVAL {
        return;
      }
      lastRttUpdate := now;
      var sequence := NextSequenceNumber();
      rttRequests := rttRequests[sequence := now];
      log := log + [RttRequest(sequence, now)];
    }

    method OnRttMeasureResponse(sequence: uint32, now: Time, later: Time)
      requires sequence < WIRE_NUMBERS && |Blocked(rttRequests)| < NUMBERS
      modifies this
      ensures Model() == NetworkState.OnRttMeasureResponse(old(Model()), sequence, now, later)
    {
      if sequence !in rttRequests {
        return;
      }
      var roundTripTime := now - rttRequests[sequence];
      FewerBlocked(rttRequests, sequence);
      rttRequests := rttRequests - {sequence};
      log := log + [RttMatched(sequence)];
      if roundTripTime <= 0 {
        return;
      }
      rttMeasurements := rttMeasurements + [Measurement(now, roundTripTime)];
      UpdateAverageRtt(later);
    }

    method OnBandwidthMeasureResults(measured: uint32, now: Time)
      requires |Blocked(rttRequests)| < NUMBERS
      modifies this
      ensures Model() == NetworkState.OnBandwidthMeasureResults(old(Model()), measured, now)
    {
      if bandwidthState != PendingResults {
        return;
      }
      bandwidthState := NoMeasure;
      log := log + [BandwidthResults];
      if measured == 0 {
        return;
      }
      bandwidth := measured;
      UpdateAverageRtt(now);
    }

    method UpdateAverageRtt(now: Time)
      requires |Blocked(rttRequests)| < NUMBERS
      modifies this
      ensures Model() == NetworkState.UpdateAverageRtt(old(Model()), now)
    {
      rttMeasurements := Fresh(rttMeasurements, now);
      if rttMeasurements == [] {
        return;
      }
      Average();
      log := log + [RttChanged];
      if now - lastNetworkResult < NETWORK_RESULT_INTERVAL {
        return;
      }
      lastNetworkResult := now;
      var sequence := NextSequenceNumber();
      log := log + [NetworkResult(sequence, now, minimumRtt / MILLISECOND, averageRtt / MILLISECOND, bandwidth)];
    }

    /** The loop over the window. */
    method Average()
      requires rttMeasurements != []
      modifies this`minimumRtt, this`averageRtt
      ensures minimumRtt == Least(rttMeasurements, |rttMeasurements|)
      ensures averageRtt == Sum(rttMeasurements, |rttMeasurements|) / |rttMeasurements|
    {
      minimumRtt := INT64_MAX;
      var sum := 0;
      for i := 0 to |rttMeasurements|
        invariant minimumRtt == Least(rttMeasurements, i)
        invariant sum == Sum(rttMeasurements, i)
      {
        minimumRtt := Min(minimumRtt, rttMeasurements[i].roundTrip);
        sum := sum + rttMeasurements[i].roundTrip;
      }
      averageRtt := sum / |rttMeasurements|;
    }
  }
}

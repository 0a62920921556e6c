/** Network detection: what its operations do to its state. */
module NetworkState {
  import opened Basics

  const NUMBERS := 0x1_0000_0000
  const WIRE_NUMBERS := 0x1_0000
  const MILLISECOND := 1_000_000
  const RTT_UPDATE_INTERVAL := 70 * MILLISECOND
  const RTT_AVERAGE_INTERVAL := 500 * MILLISECOND
  const NETWORK_RESULT_INTERVAL := 1000 * MILLISECOND

  /** A reading of the system clock in nanoseconds. Differences of readings fit 64 bits. */
  type Time = t: int | 0 <= t < 0x4000_0000_0000_0000

  datatype BandwidthState = NoMeasure | PendingStop | QueuedStop | PendingResults

  datatype Measurement = Measurement(time: Time, roundTrip: int)

  /** What happened, in order. A request carries the low 16 bits of its number. */
  datatype Happening =
    | BandwidthStart
    | BandwidthStop
    | BandwidthResults
    | RttRequest(number: uint32, time: Time)
    | RttMatched(number: uint32)
    | RttChanged
    | NetworkResult(number: uint32, time: Time, baseRtt: int, averageRtt: int, bandwidth: uint32)

  datatype State = State(
    bandwidthState: BandwidthState,
    sequenceNumber: uint32,
    bandwidth: uint32,
    lastRttUpdate: Time,
    requests: map<uint32, Time>,
    measurements: seq<Measurement>,
    minimumRtt: int,
    averageRtt: int,
    lastNetworkResult: Time,
    log: seq<Happening>)
  {
    function Log(h: Happening): State {
      this.(log := log + [h])
    }
  }

  const INITIAL := State(NoMeasure, 0, 0, 0, map[], [], 0, 0, 0, [])

  // Sequence numbers.

  function Following(number: uint32): uint32 {
    (number + 1) % NUMBERS
  }

  /** The first number from `number` on, wrapping around, that is not blocked. */
  function FirstFree(number: uint32, blocked: set<uint32>): uint32
    decreases |blocked|
  {
    if number in blocked then FirstFree(Following(number), blocked - {number}) else number
  }

  function Blocked(requests: map<uint32, Time>): set<uint32> {
    requests.Keys + {0}
  }

  function NextNumber(s: State): uint32 {
    FirstFree(s.sequenceNumber, Blocked(s.requests))
  }

  // Bandwidth.

  function StartBandwidthMeasure(s: State): State {
    if s.bandwidthState != NoMeasure then s else s.(bandwidthState := PendingStop).Log(BandwidthStart)
  }

  function StopBandwidthMeasure(s: State): State {
    if s.bandwidthState != PendingStop then s else s.(bandwidthState := PendingResults).Log(BandwidthStop)
  }

  function OnBandwidthMeasureResults(s: State, bandwidth: uint32, now: Time): State {
    if s.bandwidthState != PendingResults then s
    else
      var accepted := s.(bandwidthState := NoMeasure).Log(BandwidthResults);
      if bandwidth == 0 then accepted else UpdateAverageRtt(accepted.(bandwidth := bandwidth), now)
  }

  // Round trips.

  function Update(s: State, now: Time, streaming: bool): State {
    if !streaming || now - s.lastRttUpdate < RTT_UPDATE_INTERVAL then s
    else
      var number := NextNumber(s);
      s.(lastRttUpdate := now, sequenceNumber := Following(number), requests := s.requests[number := now])
       .Log(RttRequest(number, now))
  }

  /** `later` is the second reading of the clock. */
  function OnRttMeasureResponse(s: State, number: uint32, now: Time, later: Time): State {
    if number !in s.requests then s
    else
      var roundTrip := now - s.requests[number];
      var matched := s.(requests := s.requests - {number}).Log(RttMatched(number));
      if roundTrip <= 0 then matched
      else UpdateAverageRtt(matched.(measurements := s.measurements + [Measurement(now, roundTrip)]), later)
  }

  /** The measurements at most half a second old, in their order. */
  function Fresh(measurements: seq<Measurement>, now: Time): seq<Measurement> {
    if |measurements| == 0 then []
    else
      var last := measurements[|measurements| - 1];
      Fresh(measurements[..|measurements| - 1], now) + if now - last.time > RTT_AVERAGE_INTERVAL then [] else [last]
  }

  function Least(measurements: seq<Measurement>, n: nat): int
    requires n <= |measurements|
  {
    if n == 0 then INT64_MAX else Min(Least(measurements, n - 1), measurements[n - 1].roundTrip)
  }

  function Sum(measurements: seq<Measurement>, n: nat): int
    requires n <= |measurements|
  {
    if n == 0 then 0 else Sum(measurements, n - 1) + measurements[n - 1].roundTrip
  }

  function UpdateAverageRtt(s: State, now: Time): State {
    var window := Fresh(s.measurements, now);
    var kept := s.(measurements := window);
    if |window| == 0 then kept
    else
      var measured := kept.(minimumRtt := Least(window, |window|), averageRtt := Sum(window, |window|) / |window|)
                          .Log(RttChanged);
      if now - s.lastNetworkResult < NETWORK_RESULT_INTERVAL then measured
      else
        var number := NextNumber(s);
        measured.(lastNetworkResult := now, sequenceNumber := Following(number))
                .Log(NetworkResult(number, now, measured.minimumRtt / MILLISECOND,
                                   measured.averageRtt / MILLISECOND, s.bandwidth))
  }
}

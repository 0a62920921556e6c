/** What is measured and reported: the window, the mean, the bandwidth, and when requests and results are sent. */
module NetworkStatistics {
  import opened Basics
  import opened Sums
  import opened NetworkState
  import opened NumberSearch
  import opened NetworkRuns

  /** The measurements an update keeps of these. */
  function Kept(s: State, measurements: seq<Measurement>, now: Time): seq<Measurement> {
    UpdateAverageRtt(s.(measurements := measurements), now).measurements
  }

  lemma KeptIsFresh(s: State, measurements: seq<Measurement>, now: Time)
    ensures Kept(s, measurements, now) == Fresh(measurements, now)
  {
  }

  lemma {:induction false} FreshOfBoth(a: seq<Measurement>, b: seq<Measurement>, now: Time)
    ensures Fresh(a + b, now) == Fresh(a, now) + Fresh(b, now)
  {
    if |b| == 0 {
      assert a + b == a;
    } else {
      FreshOfBoth(a, b[..|b| - 1], now);
      assert (a + b)[..|a + b| - 1] == a + b[..|b| - 1];
    }
  }

  /** Each measurement is kept on its own account, exactly if it is at most half a second old, and they stay in order.
      */
  lemma WindowIsWhatIsRecent(s: State, a: seq<Measurement>, b: seq<Measurement>, m: Measurement, now: Time)
    ensures Kept(s, [m], now) == if now - m.time <= 500_000_000 then [m] else []
    ensures Kept(s, a + b, now) == Kept(s, a, now) + Kept(s, b, now)
  {
    KeptIsFresh(s, [m], now);
    assert [m][..0] == [];
    assert Fresh([m][..0], now) == [];
    KeptIsFresh(s, a, now);
    KeptIsFresh(s, b, now);
    KeptIsFresh(s, a + b, now);
    FreshOfBoth(a, b, now);
  }

  const ROUND_TRIP: Measurement -> int := (m: Measurement) => m.roundTrip

  lemma {:induction false} SumIsTheTotal(total: seq<Measurement> -> int, window: seq<Measurement>, n: nat)
    requires AddsUp(total, ROUND_TRIP) && n <= |window|
    ensures total(window[..n]) == Sum(window, n)
  {
    if n == 0 {
      NothingAddsUpToZero(total, ROUND_TRIP, window[..n]);
    } else {
      SumIsTheTotal(total, window, n - 1);
      assert window[..n] == window[..n - 1] + [window[n - 1]];
      assert ROUND_TRIP(window[n - 1]) == window[n - 1].roundTrip;
    }
  }

  /** The average reported is the mean of the round trips kept. */
  lemma AverageIsTheMean(s: State, now: Time, total: seq<Measurement> -> int)
    requires AddsUp(total, ROUND_TRIP)
    ensures var t := UpdateAverageRtt(s, now);
            t.measurements != [] ==> IsMean(total, t.measurements, t.averageRtt)
  {
    var window := Fresh(s.measurements, now);
    SumIsTheTotal(total, window, |window|);
    assert window[..|window|] == window;
    if |window| > 0 {
      QuotientIsMean(total, window);
    }
  }

  /** Ten and thirty milliseconds make twenty. */
  lemma MeanOfTwo(s: State, a: Measurement, b: Measurement, now: Time)
    requires s.measurements == [a] + [b] && a == Measurement(now, 10_000_000) && b == Measurement(now, 30_000_000)
    ensures UpdateAverageRtt(s, now).averageRtt == 20_000_000
    ensures UpdateAverageRtt(s, now).minimumRtt == 10_000_000
  {
    TwoAreKept(s, a, b, now);
    SumOfTwo(UpdateAverageRtt(s, now).measurements);
  }

  lemma TwoAreKept(s: State, a: Measurement, b: Measurement, now: Time)
    requires s.measurements == [a] + [b] && a.time == now && b.time == now
    ensures UpdateAverageRtt(s, now).measurements == [a, b]
  {
    WindowIsWhatIsRecent(s, [a], [b], a, now);
    WindowIsWhatIsRecent(s, [a], [b], b, now);
    assert s == s.(measurements := [a] + [b]);
  }

  lemma SumOfTwo(window: seq<Measurement>)
    requires |window| == 2
    ensures Sum(window, 2) == window[0].roundTrip + window[1].roundTrip
    ensures Least(window, 2) == Min(Min(INT64_MAX, window[0].roundTrip), window[1].roundTrip)
  {
    assert Sum(window, 1) == window[0].roundTrip;
    assert Least(window, 1) == Min(INT64_MAX, window[0].roundTrip);
  }

  ghost predicate Unused(s: State, number: uint32) {
    number != 0 && number !in s.requests
  }

  /** A result under this number. */
  function ResultOf(t: State, number: uint32): Happening {
    NetworkResult(number, t.lastNetworkResult, t.minimumRtt / 1_000_000, t.averageRtt / 1_000_000, t.bandwidth)
  }

  /** What an update reports: nothing without measurements; otherwise that the round trip changed, and a second or more
      after the last result also a result. */
  lemma WhatIsReported(s: State, now: Time)
    requires |s.requests| < NUMBERS - 1
    ensures var t := UpdateAverageRtt(s, now);
            && t.requests == s.requests && t.bandwidth == s.bandwidth && t.bandwidthState == s.bandwidthState
            && t.lastRttUpdate == s.lastRttUpdate
            && if t.measurements == [] then t == s.(measurements := [])
               else if now - s.lastNetworkResult < 1_000_000_000 then
                 && t.log == s.log + [RttChanged]
                 && t.lastNetworkResult == s.lastNetworkResult && t.sequenceNumber == s.sequenceNumber
               else
                 && t.lastNetworkResult == now
                 && exists number: uint32 ::
                      && Unused(s, number) && t.sequenceNumber == (number + 1) % 0x1_0000_0000
                      && t.log == s.log + [RttChanged, ResultOf(t, number)]
  {
    var _ := NextNumberIsUnused(s);
    var t := UpdateAverageRtt(s, now);
    if t.measurements != [] && now - s.lastNetworkResult >= 1_000_000_000 {
      assert t.log == s.log + [RttChanged, ResultOf(t, NextNumber(s))];
    }
  }

  /** A request is sent exactly while streaming and 70 milliseconds or more after the last, under an unused number. */
  lemma WhatATickSends(s: State, now: Time, streaming: bool)
    requires |s.requests| < NUMBERS - 1
    ensures var t := Update(s, now, streaming);
            if streaming && now - s.lastRttUpdate >= 70_000_000 then
              exists number: uint32 ::
                && Unused(s, number)
                && t == s.(lastRttUpdate := now, requests := s.requests[number := now],
                           sequenceNumber := (number + 1) % 0x1_0000_0000, log := s.log + [RttRequest(number, now)])
            else t == s
  {
    var _ := NextNumberIsUnused(s);
    var t := Update(s, now, streaming);
    if t != s {
      assert t.log == s.log + [RttRequest(NextNumber(s), now)];
    }
  }

  /** The response to an outstanding request removes it; if time has passed since it was issued, that time joins the
      window, and otherwise nothing is measured. */
  lemma WhatAResponseMeasures(s: State, number: uint32, now: Time, later: Time)
    requires number in s.requests
    ensures var t, took := OnRttMeasureResponse(s, number, now, later), now - s.requests[number];
            && t.requests == s.requests - {number}
            && if took > 0 then t.measurements == Kept(s, s.measurements + [Measurement(now, took)], later)
               else t == s.(requests := t.requests, log := s.log + [RttMatched(number)])
  {
    var m := Measurement(now, now - s.requests[number]);
    var matched := s.(requests := s.requests - {number}).Log(RttMatched(number));
    NewOneJoins(s, matched, m, later);
    AveragingKeepsRequests(matched.(measurements := s.measurements + [m]), later);
  }

  lemma NewOneJoins(s: State, t: State, m: Measurement, now: Time)
    requires t.measurements == s.measurements
    ensures UpdateAverageRtt(t.(measurements := t.measurements + [m]), now).measurements ==
            Kept(s, s.measurements + [m], now)
  {
    KeptIsFresh(s, s.measurements + [m], now);
    KeptIsFresh(t, s.measurements + [m], now);
  }

  lemma AveragingKeepsRequests(s: State, now: Time)
    ensures UpdateAverageRtt(s, now).requests == s.requests && UpdateAverageRtt(s, now).bandwidth == s.bandwidth
  {
  }

  /** A measurement that joins the window is reported at once, like an awaited bandwidth that is not zero: all that
      `WhatIsReported` says of an update then holds. */
  lemma WhatTriggersAnUpdate(s: State, number: uint32, bandwidth: uint32, now: Time, later: Time)
    ensures number in s.requests && now > s.requests[number] ==>
              OnRttMeasureResponse(s, number, now, later) ==
              UpdateAverageRtt(s.(requests := s.requests - {number}, log := s.log + [RttMatched(number)],
                                  measurements := s.measurements + [Measurement(now, now - s.requests[number])]), later)
    ensures number !in s.requests ==> OnRttMeasureResponse(s, number, now, later) == s
    ensures OnBandwidthMeasureResults(s, bandwidth, now) ==
            if s.bandwidthState != PendingResults then s
            else
              var done := s.(bandwidthState := NoMeasure, log := s.log + [BandwidthResults]);
              if bandwidth == 0 then done else UpdateAverageRtt(done.(bandwidth := bandwidth), now)
  {
  }

  /** The last bandwidth measured: results that were awaited, and not zero. */
  function LastBandwidth(events: seq<Event>): uint32 {
    if |events| == 0 then 0
    else
      var before, e := events[..|events| - 1], events[|events| - 1];
      if e.Results? && e.bandwidth != 0 && Run(INITIAL, before).bandwidthState == PendingResults then e.bandwidth
      else LastBandwidth(before)
  }

  lemma BandwidthStep(s: State, e: Event)
    ensures Step(s, e).bandwidth ==
            if e.Results? && e.bandwidth != 0 && s.bandwidthState == PendingResults then e.bandwidth else s.bandwidth
  {
  }

  /** Over every run, the bandwidth reported is the one measured last. */
  lemma {:induction false} BandwidthIsTheLastMeasured(events: seq<Event>)
    ensures Run(INITIAL, events).bandwidth == LastBandwidth(events)
  {
    if |events| > 0 {
      BandwidthIsTheLastMeasured(events[..|events| - 1]);
      BandwidthStep(Run(INITIAL, events[..|events| - 1]), events[|events| - 1]);
    }
  }
}

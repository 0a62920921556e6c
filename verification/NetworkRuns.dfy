/** What holds of network detection over every run, with whatever clock and whatever messages. */
module NetworkRuns {
  import opened Basics
  import opened NetworkState
  import opened NumberSearch

  datatype Event =
    | StartMeasure
    | StopMeasure
    | Results(bandwidth: uint32, now: Time)
    | Tick(now: Time, streaming: bool)
    | Response(number: uint32, now: Time, later: Time)

  /** A response carries 16 bits. */
  predicate OnWire(e: Event) {
    e.Response? ==> e.number < WIRE_NUMBERS
  }

  function Step(s: State, e: Event): State {
    match e
    case StartMeasure => StartBandwidthMeasure(s)
    case StopMeasure => StopBandwidthMeasure(s)
    case Results(bandwidth, now) => OnBandwidthMeasureResults(s, bandwidth, now)
    case Tick(now, streaming) => Update(s, now, streaming)
    case Response(number, now, later) => OnRttMeasureResponse(s, number, now, later)
  }

  function Run(s: State, events: seq<Event>): State {
    if |events| == 0 then s else Step(Run(s, events[..|events| - 1]), events[|events| - 1])
  }

  /** What the log shows: the bandwidth happenings, when requests were sent and results reported, and which numbers
      were issued and matched. */
  datatype View = View(
    cycle: seq<Happening>, requestTimes: seq<int>, resultTimes: seq<int>,
    issued: multiset<uint32>, matched: multiset<uint32>, issueTimes: map<uint32, int>)
  {
    function Add(h: Happening): View {
      match h
      case BandwidthStart => this.(cycle := cycle + [h])
      case BandwidthStop => this.(cycle := cycle + [h])
      case BandwidthResults => this.(cycle := cycle + [h])
      case RttRequest(number, time) =>
        this.(requestTimes := requestTimes + [time], issued := issued + multiset{number},
              issueTimes := issueTimes[number := time])
      case RttMatched(number) => this.(matched := matched + multiset{number})
      case RttChanged => this
      case NetworkResult(_, time, _, _, _) => this.(resultTimes := resultTimes + [time])
    }
  }

  function ViewOf(log: seq<Happening>): View {
    if |log| == 0 then View([], [], [], multiset{}, multiset{}, map[])
    else ViewOf(log[..|log| - 1]).Add(log[|log| - 1])
  }

  lemma Logged(log: seq<Happening>, h: Happening)
    ensures ViewOf(log + [h]) == ViewOf(log).Add(h)
  {
  }

  // The invariants.

  function Phase(i: nat): Happening {
    if i % 3 == 0 then BandwidthStart else if i % 3 == 1 then BandwidthStop else BandwidthResults
  }

  /** The calls that had an effect go start, stop, results, over and over, and the state tells where they stand. */
  ghost predicate CycleInv(s: Summary) {
    var cycle := s.view.cycle;
    && (forall i :: 0 <= i < |cycle| ==> cycle[i] == Phase(i))
    && s.bandwidthState ==
       (if |cycle| % 3 == 0 then NoMeasure else if |cycle| % 3 == 1 then PendingStop else PendingResults)
  }

  /** Consecutive times are at least `gap` apart, and `last` is the last of them. */
  ghost predicate Spaced(times: seq<int>, gap: int, last: int) {
    && (forall i :: 0 < i < |times| ==> times[i] - times[i - 1] >= gap)
    && (|times| > 0 ==> times[|times| - 1] == last)
  }

  ghost predicate RateInv(s: Summary) {
    && Spaced(s.view.requestTimes, RTT_UPDATE_INTERVAL, s.lastRttUpdate)
    && Spaced(s.view.resultTimes, NETWORK_RESULT_INTERVAL, s.lastNetworkResult)
  }

  /** The time kept with an outstanding number is the time at which that number was last issued. */
  ghost predicate TimesInv(s: Summary) {
    forall n :: n in s.requests ==> n in s.view.issueTimes && s.view.issueTimes[n] == s.requests[n]
  }

  /** Every request issued is either matched, once, or outstanding; only 16-bit numbers are ever matched. */
  ghost predicate LedgerInv(s: Summary) {
    && s.view.issued == s.view.matched + multiset(s.requests.Keys)
    && forall n :: n in s.view.matched ==> n < WIRE_NUMBERS
  }

  /** The statistics agree with a window of positive measurements, or nothing was measured yet. */
  ghost predicate StatisticsInv(s: State) {
    && (forall i :: 0 <= i < |s.measurements| ==> 0 < s.measurements[i].roundTrip < 0x4000_0000_0000_0000)
    && ((s.minimumRtt == 0 && s.averageRtt == 0) || 0 < s.minimumRtt <= s.averageRtt)
  }

  lemma {:induction false} AverageIsBetween(window: seq<Measurement>, n: nat, most: int)
    requires 0 < n <= |window|
    requires forall i :: 0 <= i < n ==> 0 < window[i].roundTrip <= most
    requires most < INT64_MAX
    ensures 0 < Least(window, n)
    ensures exists i :: 0 <= i < n && window[i].roundTrip == Least(window, n)
    ensures forall i :: 0 <= i < n ==> Least(window, n) <= window[i].roundTrip
    ensures n * Least(window, n) <= Sum(window, n) <= n * most
  {
    if n == 1 {
      assert Least(window, 0) == INT64_MAX && Sum(window, 0) == 0;
    } else {
      AverageIsBetween(window, n - 1, most);
      var before := Least(window, n - 1);
      var i :| 0 <= i < n - 1 && window[i].roundTrip == before;
      assert Least(window, n) == window[if before <= window[n - 1].roundTrip then i else n - 1].roundTrip;
      assert (n - 1) * Least(window, n) <= (n - 1) * before;
    }
  }

  lemma FreshIsPart(measurements: seq<Measurement>, now: Time)
    ensures forall m :: m in Fresh(measurements, now) <==> m in measurements && now - m.time <= RTT_AVERAGE_INTERVAL
    ensures |Fresh(measurements, now)| <= |measurements|
  {
  }

  /** The part of the state that the invariants on cycles, rates and requests speak about. */
  datatype Summary = Summary(
    bandwidthState: BandwidthState, lastRttUpdate: Time, lastNetworkResult: Time, requests: map<uint32, Time>,
    view: View)
  {
    function Add(h: Happening): Summary {
      this.(view := view.Add(h))
    }
  }

  function SummaryOf(s: State): Summary {
    Summary(s.bandwidthState, s.lastRttUpdate, s.lastNetworkResult, s.requests, ViewOf(s.log))
  }

  /** Nothing differs but that one more result was reported, at `now`, at least a second after the last. */
  ghost predicate AtMostOneResult(s: Summary, now: Time, t: Summary) {
    || t == s
    || (&& now - s.lastNetworkResult >= NETWORK_RESULT_INTERVAL
        && t == s.(lastNetworkResult := now, view := s.view.(resultTimes := s.view.resultTimes + [now])))
  }

  /** What an event does to the summary. */
  ghost predicate Effect(s: Summary, e: Event, t: Summary) {
    match e
    case StartMeasure =>
      t == if s.bandwidthState == NoMeasure then s.(bandwidthState := PendingStop).Add(BandwidthStart) else s
    case StopMeasure =>
      t == if s.bandwidthState == PendingStop then s.(bandwidthState := PendingResults).Add(BandwidthStop) else s
    case Results(_, now) =>
      if s.bandwidthState == PendingResults then
        AtMostOneResult(s.(bandwidthState := NoMeasure).Add(BandwidthResults), now, t)
      else t == s
    case Tick(now, _) =>
      t == s || (&& now - s.lastRttUpdate >= RTT_UPDATE_INTERVAL
                 && exists number: uint32 :: Sends(s, number, now, t))
    case Response(number, now, later) =>
      if number in s.requests then
        AtMostOneResult(s.(requests := s.requests - {number}).Add(RttMatched(number)), later, t)
      else t == s
  }

  /** Updating the average touches neither bandwidth measuring nor requests, and reports a result at most once a
      second. */
  lemma AveragingEffect(s: State, now: Time)
    ensures AtMostOneResult(SummaryOf(s), now, SummaryOf(UpdateAverageRtt(s, now)))
  {
    var t, n := UpdateAverageRtt(s, now), |s.log|;
    Logged(s.log, RttChanged);
    if |t.log| == n + 2 {
      Logged(s.log + [RttChanged], t.log[n + 1]);
    }
  }

  /** A request was sent under a number that was free if any was. */
  ghost predicate Sends(s: Summary, number: uint32, now: Time, t: Summary) {
    && t == s.(lastRttUpdate := now, requests := s.requests[number := now]).Add(RttRequest(number, now))
    && (|s.requests| < NUMBERS - 1 ==> number !in s.requests)
  }

  lemma TickEffect(s: State, now: Time, streaming: bool)
    ensures Effect(SummaryOf(s), Tick(now, streaming), SummaryOf(Update(s, now, streaming)))
  {
    var t := Update(s, now, streaming);
    if t != s {
      var number := NextNumber(s);
      Logged(s.log, RttRequest(number, now));
      if |s.requests| < NUMBERS - 1 {
        var _ := NextNumberIsUnused(s);
      }
      assert Sends(SummaryOf(s), number, now, SummaryOf(t));
    }
  }

  lemma ResponseEffect(s: State, number: uint32, now: Time, later: Time)
    ensures Effect(SummaryOf(s), Response(number, now, later), SummaryOf(OnRttMeasureResponse(s, number, now, later)))
  {
    if number in s.requests {
      var roundTrip := now - s.requests[number];
      var matched := s.(requests := s.requests - {number}).Log(RttMatched(number));
      Logged(s.log, RttMatched(number));
      AveragingEffect(matched.(measurements := s.measurements + [Measurement(now, roundTrip)]), later);
    }
  }

  lemma ResultsEffect(s: State, bandwidth: uint32, now: Time)
    ensures Effect(SummaryOf(s), Results(bandwidth, now), SummaryOf(OnBandwidthMeasureResults(s, bandwidth, now)))
  {
    var accepted := s.(bandwidthState := NoMeasure).Log(BandwidthResults);
    Logged(s.log, BandwidthResults);
    AveragingEffect(accepted.(bandwidth := bandwidth), now);
  }

  lemma StepEffect(s: State, e: Event)
    ensures Effect(SummaryOf(s), e, SummaryOf(Step(s, e)))
  {
    match e {
      case StartMeasure => Logged(s.log, BandwidthStart);
      case StopMeasure => Logged(s.log, BandwidthStop);
      case Results(bandwidth, now) => ResultsEffect(s, bandwidth, now);
      case Tick(now, streaming) => TickEffect(s, now, streaming);
      case Response(number, now, later) => ResponseEffect(s, number, now, later);
    }
  }

  lemma CycleStep(s: Summary, e: Event, t: Summary)
    requires CycleInv(s) && Effect(s, e, t)
    ensures CycleInv(t)
  {
  }

  lemma RateStep(s: Summary, e: Event, t: Summary)
    requires RateInv(s) && Effect(s, e, t)
    ensures RateInv(t)
  {
    match e {
      case Results(_, now) =>
        RateReports(if s.bandwidthState == PendingResults
                    then s.(bandwidthState := NoMeasure).Add(BandwidthResults) else s, now, t);
      case Response(number, _, later) =>
        RateReports(if number in s.requests
                    then s.(requests := s.requests - {number}).Add(RttMatched(number)) else s, later, t);
      case Tick(now, _) =>
        if t != s {
          var number: uint32 :| Sends(s, number, now, t);
          RateSends(s, number, now, t);
        }
      case _ =>
    }
  }

  lemma RateReports(s: Summary, now: Time, t: Summary)
    requires RateInv(s) && AtMostOneResult(s, now, t)
    ensures RateInv(t)
  {
  }

  lemma RateSends(s: Summary, number: uint32, now: Time, t: Summary)
    requires RateInv(s) && now - s.lastRttUpdate >= RTT_UPDATE_INTERVAL && Sends(s, number, now, t)
    ensures RateInv(t)
  {
  }

  lemma TimesStep(s: Summary, e: Event, t: Summary)
    requires TimesInv(s) && Effect(s, e, t)
    ensures TimesInv(t)
  {
  }

  lemma LedgerSends(s: Summary, number: uint32, now: Time, t: Summary)
    requires LedgerInv(s) && |s.requests| < NUMBERS - 1 && Sends(s, number, now, t)
    ensures LedgerInv(t)
  {
  }

  lemma LedgerMatches(s: Summary, number: uint32)
    requires LedgerInv(s) && number in s.requests && number < WIRE_NUMBERS
    ensures LedgerInv(s.(requests := s.requests - {number}).Add(RttMatched(number)))
  {
  }

  lemma LedgerStep(s: Summary, e: Event, t: Summary)
    requires LedgerInv(s) && OnWire(e) && |s.requests| < NUMBERS - 1 && Effect(s, e, t)
    ensures LedgerInv(t)
  {
    match e {
      case Tick(now, _) =>
        if t != s {
          var number: uint32 :| Sends(s, number, now, t);
          LedgerSends(s, number, now, t);
        }
      case Response(number, now, later) =>
        if number in s.requests {
          LedgerMatches(s, number);
        }
      case _ =>
    }
  }

  lemma AveragingKeepsStatistics(s: State, now: Time)
    requires StatisticsInv(s)
    ensures StatisticsInv(UpdateAverageRtt(s, now))
  {
    var window := Fresh(s.measurements, now);
    FreshIsPart(s.measurements, now);
    forall i | 0 <= i < |window|
      ensures 0 < window[i].roundTrip < 0x4000_0000_0000_0000
    {
      assert window[i] in s.measurements;
    }
    if |window| > 0 {
      AverageIsBetween(window, |window|, 0x4000_0000_0000_0000);
      FloorIsBetween(Sum(window, |window|), |window|, Least(window, |window|));
    }
  }

  lemma TimesIsMonotone(n: nat, a: int, b: int)
    ensures a <= b ==> n * a <= n * b
  {
  }

  lemma FloorIsBetween(sum: int, n: nat, least: int)
    requires n > 0 && n * least <= sum
    ensures least <= sum / n
  {
    TimesIsMonotone(n, sum / n + 1, least);
    assert sum == n * (sum / n) + sum % n;
  }

  lemma ResponseKeepsStatistics(s: State, number: uint32, now: Time, later: Time)
    requires StatisticsInv(s) && number in s.requests && now - s.requests[number] > 0
    ensures StatisticsInv(OnRttMeasureResponse(s, number, now, later))
  {
    var roundTrip := now - s.requests[number];
    var matched := s.(requests := s.requests - {number}).Log(RttMatched(number));
    AveragingKeepsStatistics(matched.(measurements := s.measurements + [Measurement(now, roundTrip)]), later);
  }

  lemma ResultsKeepStatistics(s: State, bandwidth: uint32, now: Time)
    requires StatisticsInv(s)
    ensures StatisticsInv(OnBandwidthMeasureResults(s, bandwidth, now))
  {
    AveragingKeepsStatistics(s.(bandwidthState := NoMeasure).Log(BandwidthResults).(bandwidth := bandwidth), now);
  }

  lemma StatisticsStep(s: State, e: Event)
    requires StatisticsInv(s)
    ensures StatisticsInv(Step(s, e))
  {
    if e.Results? {
      ResultsKeepStatistics(s, e.bandwidth, e.now);
    } else if e.Response? && e.number in s.requests && e.now - s.requests[e.number] > 0 {
      ResponseKeepsStatistics(s, e.number, e.now, e.later);
    }
  }

  // The theorems.

  /** Bandwidth measuring goes start, stop, results, over and over, whatever order the calls come in; the state for a
      queued stop is never entered. */
  lemma {:induction false} BandwidthMeasuringAlternates(events: seq<Event>)
    ensures CycleInv(SummaryOf(Run(INITIAL, events)))
  {
    if |events| > 0 {
      BandwidthMeasuringAlternates(events[..|events| - 1]);
      var s, e := Run(INITIAL, events[..|events| - 1]), events[|events| - 1];
      StepEffect(s, e);
      CycleStep(SummaryOf(s), e, SummaryOf(Step(s, e)));
    }
  }

  lemma {:induction false} RatesAlways(events: seq<Event>)
    ensures RateInv(SummaryOf(Run(INITIAL, events)))
  {
    if |events| > 0 {
      RatesAlways(events[..|events| - 1]);
      var s, e := Run(INITIAL, events[..|events| - 1]), events[|events| - 1];
      StepEffect(s, e);
      RateStep(SummaryOf(s), e, SummaryOf(Step(s, e)));
    }
  }

  lemma {:induction false} SpacedFarApart(times: seq<int>, gap: int, last: int, i: nat, j: nat)
    requires Spaced(times, gap, last) && i <= j < |times|
    ensures times[j] - times[i] >= (j - i) * gap
    decreases j - i
  {
    if i < j {
      SpacedFarApart(times, gap, last, i, j - 1);
      assert (j - i) * gap == (j - 1 - i) * gap + gap;
    }
  }

  /** Requests and results keep their distance over any stretch of the run, even if the clock is set back. */
  lemma RatesAreLimited(events: seq<Event>)
    ensures var t := ViewOf(Run(INITIAL, events).log).requestTimes;
            forall i, j :: 0 <= i <= j < |t| ==> t[j] - t[i] >= (j - i) * 70_000_000
    ensures var t := ViewOf(Run(INITIAL, events).log).resultTimes;
            forall i, j :: 0 <= i <= j < |t| ==> t[j] - t[i] >= (j - i) * 1_000_000_000
  {
    var s := Run(INITIAL, events);
    RatesAlways(events);
    var t := ViewOf(s.log).requestTimes;
    forall i, j | 0 <= i <= j < |t|
      ensures t[j] - t[i] >= (j - i) * RTT_UPDATE_INTERVAL
    {
      SpacedFarApart(t, RTT_UPDATE_INTERVAL, s.lastRttUpdate, i, j);
    }
    var u := ViewOf(s.log).resultTimes;
    forall i, j | 0 <= i <= j < |u|
      ensures u[j] - u[i] >= (j - i) * NETWORK_RESULT_INTERVAL
    {
      SpacedFarApart(u, NETWORK_RESULT_INTERVAL, s.lastNetworkResult, i, j);
    }
  }

  /** Before every event some number is free; otherwise the search for one does not return. */
  ghost predicate SearchReturns(events: seq<Event>) {
    forall i :: 0 <= i < |events| ==> |Run(INITIAL, events[..i]).requests| < NUMBERS - 1
  }

  /** A round trip is measured from the time its own number was last issued. */
  lemma {:induction false} RoundTripsStartWhenIssued(events: seq<Event>)
    ensures TimesInv(SummaryOf(Run(INITIAL, events)))
  {
    if |events| > 0 {
      RoundTripsStartWhenIssued(events[..|events| - 1]);
      var s, e := Run(INITIAL, events[..|events| - 1]), events[|events| - 1];
      StepEffect(s, e);
      TimesStep(SummaryOf(s), e, SummaryOf(Step(s, e)));
    }
  }

  /** Requests are conserved: each one issued is outstanding or was matched, and matched at most once. */
  lemma {:induction false} RequestsAreConserved(events: seq<Event>)
    requires (forall i :: 0 <= i < |events| ==> OnWire(events[i])) && SearchReturns(events)
    ensures LedgerInv(SummaryOf(Run(INITIAL, events)))
  {
    if |events| > 0 {
      var before := events[..|events| - 1];
      assert SearchReturns(before) by {
        forall i | 0 <= i < |before|
          ensures |Run(INITIAL, before[..i]).requests| < NUMBERS - 1
        {
          assert before[..i] == events[..i];
        }
      }
      RequestsAreConserved(before);
      var s, e := Run(INITIAL, before), events[|events| - 1];
      StepEffect(s, e);
      LedgerStep(SummaryOf(s), e, SummaryOf(Step(s, e)));
    }
  }

  /** The response that echoes an outstanding request settles that request exactly if its number fits 16 bits, and
      another one exactly if it does not and the low 16 bits are the number of one outstanding. */
  lemma EchoSettlesAnotherIff(s: State, number: uint32, now: Time, later: Time)
    requires number in s.requests
    ensures var after := Step(s, Response(number % WIRE_NUMBERS, now, later)).requests;
            && (number !in after <==> number < WIRE_NUMBERS)
            && ((exists other :: other in s.requests && other != number && other !in after) <==>
                  number >= WIRE_NUMBERS && number % WIRE_NUMBERS in s.requests)
  {
    ResponseEffect(s, number % WIRE_NUMBERS, now, later);
    if number >= WIRE_NUMBERS && number % WIRE_NUMBERS in s.requests {
      assert number % WIRE_NUMBERS != number;
    }
  }

  /** A request whose number does not fit 16 bits stays outstanding for good. */
  lemma {:induction false} LargeNumbersAreNeverSettled(s: State, events: seq<Event>, number: uint32)
    requires forall i :: 0 <= i < |events| ==> OnWire(events[i])
    requires number in s.requests && number >= WIRE_NUMBERS
    ensures number in Run(s, events).requests
  {
    if |events| > 0 {
      var before, e := events[..|events| - 1], events[|events| - 1];
      LargeNumbersAreNeverSettled(s, before, number);
      StepEffect(Run(s, before), e);
    }
  }

  /** Whatever arrives, the minimum and average round trip are both unset, or 0 < minimum <= average. */
  lemma {:induction false} StatisticsAlways(events: seq<Event>)
    ensures StatisticsInv(Run(INITIAL, events))
  {
    if |events| > 0 {
      StatisticsAlways(events[..|events| - 1]);
      StatisticsStep(Run(INITIAL, events[..|events| - 1]), events[|events| - 1]);
    }
  }

  /** After an update the window holds the measurements at most half a second old, in their order; if there are any,
      the minimum is one of them and the average lies between the minimum and the maximum. */
  lemma WindowStatistics(s: State, now: Time, most: int)
    requires StatisticsInv(s)
    requires forall i :: 0 <= i < |s.measurements| ==> s.measurements[i].roundTrip <= most
    requires most < INT64_MAX
    ensures var t := UpdateAverageRtt(s, now);
            && t.measurements == Fresh(s.measurements, now)
            && (forall m :: m in t.measurements <==> m in s.measurements && now - m.time <= RTT_AVERAGE_INTERVAL)
            && (t.measurements != [] ==>
                  && (exists i :: 0 <= i < |t.measurements| && t.measurements[i].roundTrip == t.minimumRtt)
                  && (forall i :: 0 <= i < |t.measurements| ==> t.minimumRtt <= t.measurements[i].roundTrip)
                  && 0 < t.minimumRtt <= t.averageRtt <= most)
  {
    var window := Fresh(s.measurements, now);
    FreshIsPart(s.measurements, now);
    forall i | 0 <= i < |window|
      ensures 0 < window[i].roundTrip <= most
    {
      assert window[i] in s.measurements;
    }
    if |window| > 0 {
      AverageIsBetween(window, |window|, most);
      FloorIsBetween(Sum(window, |window|), |window|, Least(window, |window|));
      FloorIsAtMost(Sum(window, |window|), |window|, most);
    }
  }

  lemma FloorIsAtMost(sum: int, n: nat, most: int)
    requires n > 0 && sum <= n * most
    ensures sum / n <= most
  {
  }

  /** A reported result carries an unused number, and round trips rounded down to milliseconds, the minimum at most the
      average. */
  lemma ReportedResult(s: State, now: Time)
    requires StatisticsInv(s) && |s.requests| < NUMBERS - 1
    requires Fresh(s.measurements, now) != [] && now - s.lastNetworkResult >= NETWORK_RESULT_INTERVAL
    ensures var t := UpdateAverageRtt(s, now);
            && t.log != []
            && var h := t.log[|t.log| - 1];
               && h.NetworkResult? && h.time == now && h.bandwidth == s.bandwidth
               && h.number != 0 && h.number !in s.requests
               && h.baseRtt * MILLISECOND <= t.minimumRtt < (h.baseRtt + 1) * MILLISECOND
               && h.averageRtt * MILLISECOND <= t.averageRtt < (h.averageRtt + 1) * MILLISECOND
               && 0 <= h.baseRtt <= h.averageRtt
  {
    AveragingKeepsStatistics(s, now);
    var _ := NextNumberIsUnused(s);
    var t := UpdateAverageRtt(s, now);
    InMilliseconds(t.minimumRtt, t.averageRtt);
  }

  lemma InMilliseconds(least: int, average: int)
    requires 0 <= least <= average
    ensures 0 <= least / MILLISECOND <= average / MILLISECOND
    ensures least / MILLISECOND * MILLISECOND <= least < (least / MILLISECOND + 1) * MILLISECOND
    ensures average / MILLISECOND * MILLISECOND <= average < (average / MILLISECOND + 1) * MILLISECOND
  {
  }
}

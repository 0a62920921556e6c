/** What becomes of the round trips once the numbers of all outstanding requests are too large for a response. */
module NetworkStalls {
  import opened Basics
  import opened NetworkState
  import opened NumberSearch
  import opened NetworkRuns

  /** Neither the requests outstanding nor those to come before the counter wraps can be settled. */
  ghost predicate Stalled(s: State) {
    s.sequenceNumber >= WIRE_NUMBERS && forall n :: n in s.requests ==> n >= WIRE_NUMBERS
  }

  /** Some response settles a request exactly as long as one with a 16-bit number is outstanding. */
  lemma SomeResponseSettlesIff(s: State)
    ensures (exists number: uint32, now: Time, later: Time ::
               number < WIRE_NUMBERS && Step(s, Response(number, now, later)).requests != s.requests) <==>
            exists n :: n in s.requests && n < WIRE_NUMBERS
  {
    forall number: uint32, now: Time, later: Time
      ensures Step(s, Response(number, now, later)).requests == s.requests - {number}
    {
      ResponseEffect(s, number, now, later);
    }
    if n :| n in s.requests && n < WIRE_NUMBERS {
      assert n !in Step(s, Response(n, 0, 0)).requests;
    }
  }

  /** The counter has not wrapped, and some number was always free. */
  ghost predicate NoWrap(s: State, events: seq<Event>) {
    forall i :: 0 <= i <= |events| ==> Ahead16Bits(Run(s, events[..i]))
  }

  ghost predicate Ahead16Bits(s: State) {
    s.sequenceNumber >= WIRE_NUMBERS && |s.requests| < NUMBERS - 1
  }

  lemma NoWrapBefore(s: State, events: seq<Event>)
    requires |events| > 0 && NoWrap(s, events)
    ensures NoWrap(s, events[..|events| - 1])
    ensures Ahead16Bits(Run(s, events[..|events| - 1])) && Ahead16Bits(Run(s, events))
  {
    var before := events[..|events| - 1];
    forall i | 0 <= i <= |before|
      ensures Ahead16Bits(Run(s, before[..i]))
    {
      assert before[..i] == events[..i];
    }
    assert events[..|events|] == events;
  }

  /** A search that begins above 16 bits either ends there or goes around and takes number 1. */
  lemma NextIsLarge(s: State)
    requires Stalled(s) && |s.requests| < NUMBERS - 1 && Following(NextNumber(s)) >= WIRE_NUMBERS
    ensures NextNumber(s) >= WIRE_NUMBERS
  {
    var steps := NextNumberIsUnused(s);
    if steps > 0 {
      AheadFollows(s.sequenceNumber, steps - 1);
    }
  }

  /** Nothing is settled or measured any more, whatever the client sends. */
  ghost predicate NothingMeasured(s: State, t: State) {
    && ViewOf(t.log).matched == ViewOf(s.log).matched
    && forall m :: m in t.measurements ==> m in s.measurements
  }

  lemma StalledTick(s: State, now: Time, streaming: bool)
    requires Stalled(s) && |s.requests| < NUMBERS - 1 && Update(s, now, streaming).sequenceNumber >= WIRE_NUMBERS
    ensures Stalled(Update(s, now, streaming)) && NothingMeasured(s, Update(s, now, streaming))
  {
    if Update(s, now, streaming) != s {
      NextIsLarge(s);
      Logged(s.log, RttRequest(NextNumber(s), now));
    }
  }

  lemma AveragingMeasuresNothing(s: State, now: Time)
    ensures var t := UpdateAverageRtt(s, now); NothingMeasured(s, t) && t.requests == s.requests
  {
    FreshIsPart(s.measurements, now);
    AveragingEffect(s, now);
  }

  lemma StalledResults(s: State, bandwidth: uint32, now: Time)
    requires Stalled(s) && OnBandwidthMeasureResults(s, bandwidth, now).sequenceNumber >= WIRE_NUMBERS
    ensures var t := OnBandwidthMeasureResults(s, bandwidth, now); Stalled(t) && NothingMeasured(s, t)
  {
    var accepted := s.(bandwidthState := NoMeasure).Log(BandwidthResults);
    Logged(s.log, BandwidthResults);
    AveragingMeasuresNothing(accepted.(bandwidth := bandwidth), now);
  }

  lemma StalledStep(s: State, e: Event)
    requires Stalled(s) && OnWire(e) && |s.requests| < NUMBERS - 1 && Step(s, e).sequenceNumber >= WIRE_NUMBERS
    ensures Stalled(Step(s, e)) && NothingMeasured(s, Step(s, e))
  {
    match e {
      case StartMeasure => Logged(s.log, BandwidthStart);
      case StopMeasure => Logged(s.log, BandwidthStop);
      case Results(bandwidth, now) => StalledResults(s, bandwidth, now);
      case Tick(now, streaming) => StalledTick(s, now, streaming);
      case Response(_, _, _) =>
    }
  }

  /** From then on, until the counter wraps, no response settles a request or adds a measurement. */
  lemma {:induction false} StalledUntilTheWrap(s: State, events: seq<Event>)
    requires Stalled(s) && NoWrap(s, events) && forall i :: 0 <= i < |events| ==> OnWire(events[i])
    ensures Stalled(Run(s, events)) && NothingMeasured(s, Run(s, events))
  {
    if |events| > 0 {
      var before := events[..|events| - 1];
      NoWrapBefore(s, events);
      StalledUntilTheWrap(s, before);
      StalledStep(Run(s, before), events[|events| - 1]);
    }
  }

  /** All measurements are more than half a second old by the time of these results. */
  ghost predicate Outdated(s: State, e: Event) {
    e.Results? ==> forall m :: m in s.measurements ==> e.now - m.time > RTT_AVERAGE_INTERVAL
  }

  ghost predicate SameStatistics(s: State, t: State) {
    && t.minimumRtt == s.minimumRtt && t.averageRtt == s.averageRtt
    && ViewOf(t.log).resultTimes == ViewOf(s.log).resultTimes
  }

  lemma HasMember<T>(xs: seq<T>)
    ensures xs == [] || exists x :: x in xs
  {
    if xs != [] {
      assert xs[0] in xs;
    }
  }

  lemma AveragingNothing(s: State, now: Time)
    requires forall m :: m in s.measurements ==> now - m.time > RTT_AVERAGE_INTERVAL
    ensures SameStatistics(s, UpdateAverageRtt(s, now))
  {
    FreshIsPart(s.measurements, now);
    HasMember(Fresh(s.measurements, now));
  }

  lemma FrozenResults(s: State, bandwidth: uint32, now: Time)
    requires Outdated(s, Results(bandwidth, now))
    ensures SameStatistics(s, OnBandwidthMeasureResults(s, bandwidth, now))
  {
    Logged(s.log, BandwidthResults);
    AveragingNothing(s.(bandwidthState := NoMeasure).Log(BandwidthResults).(bandwidth := bandwidth), now);
  }

  lemma FrozenStep(s: State, e: Event)
    requires Stalled(s) && OnWire(e) && Outdated(s, e)
    ensures SameStatistics(s, Step(s, e))
  {
    match e {
      case StartMeasure => Logged(s.log, BandwidthStart);
      case StopMeasure => Logged(s.log, BandwidthStop);
      case Results(bandwidth, now) => FrozenResults(s, bandwidth, now);
      case Tick(now, _) => Logged(s.log, RttRequest(NextNumber(s), now));
      case Response(_, _, _) =>
    }
  }

  /** Half a second later minimum and average stay what they are and no result is reported, however the bandwidth
      develops. */
  lemma {:induction false} StatisticsFreeze(s: State, events: seq<Event>)
    requires Stalled(s) && NoWrap(s, events)
    requires forall i :: 0 <= i < |events| ==> OnWire(events[i]) && Outdated(s, events[i])
    ensures SameStatistics(s, Run(s, events))
  {
    if |events| > 0 {
      var before, e := events[..|events| - 1], events[|events| - 1];
      NoWrapBefore(s, events);
      StatisticsFreeze(s, before);
      StalledUntilTheWrap(s, before);
      assert Outdated(s, e);
      FrozenStep(Run(s, before), e);
    }
  }

  // A client that answers every request before the next is sent.

  /** A request sent, and its response. */
  datatype Round = Round(sent: Time, back: Time, later: Time)

  function RoundOf(s: State, r: Round): State {
    Step(Step(s, Tick(r.sent, true)), Response(NextNumber(s) % WIRE_NUMBERS, r.back, r.later))
  }

  function Rounds(rounds: seq<Round>): State {
    if |rounds| == 0 then INITIAL else RoundOf(Rounds(rounds[..|rounds| - 1]), rounds[|rounds| - 1])
  }

  /** The requests are due when they are sent. */
  ghost predicate Due(rounds: seq<Round>) {
    forall i :: 0 <= i < |rounds| ==> rounds[i].sent - SentBefore(rounds, i) >= RTT_UPDATE_INTERVAL
  }

  function SentBefore(rounds: seq<Round>, i: nat): Time
    requires i <= |rounds|
  {
    if i == 0 then 0 else rounds[i - 1].sent
  }

  lemma DueBefore(rounds: seq<Round>)
    requires |rounds| > 0 && Due(rounds)
    ensures Due(rounds[..|rounds| - 1])
  {
    var before := rounds[..|rounds| - 1];
    forall i | 0 <= i < |before|
      ensures before[i].sent - SentBefore(before, i) >= RTT_UPDATE_INTERVAL
    {
      assert SentBefore(before, i) == SentBefore(rounds, i) && before[i] == rounds[i];
    }
  }

  lemma NextWhenNoneOutstanding(s: State)
    requires s.requests == map[]
    ensures NextNumber(s) == if s.sequenceNumber == 0 then 1 else s.sequenceNumber
  {
    var zero: set<uint32> := {0};
    assert Blocked(s.requests) == zero;
    assert 1 !in zero - {0} && Following(0) == 1;
  }

  lemma TickIssuesOne(s: State, now: Time)
    requires s.requests == map[] && s.sequenceNumber < WIRE_NUMBERS && now - s.lastRttUpdate >= RTT_UPDATE_INTERVAL
    ensures var t := Step(s, Tick(now, true));
            && t.requests == map[NextNumber(s) := now] && t.lastRttUpdate == now
            && s.sequenceNumber <= NextNumber(s) < WIRE_NUMBERS && t.sequenceNumber == NextNumber(s) + 1
  {
    NextWhenNoneOutstanding(s);
  }

  lemma ResponseSettlesIt(s: State, number: uint32, r: Round)
    requires s.requests == map[number := r.sent] && s.sequenceNumber == number + 1 && number < WIRE_NUMBERS
    ensures var t := Step(s, Response(number, r.back, r.later));
            && t.requests == map[] && t.lastRttUpdate == s.lastRttUpdate && t.sequenceNumber >= s.sequenceNumber
  {
    var settled := s.(requests := s.requests - {number}).Log(RttMatched(number));
    assert settled.requests == map[];
    AveragingMovesOn(settled.(measurements := s.measurements + [Measurement(r.back, r.back - r.sent)]), r.later);
  }

  /** Every request is settled at once, as long as its number fits. */
  lemma RoundSettles(s: State, r: Round)
    requires s.requests == map[] && s.sequenceNumber < WIRE_NUMBERS
    requires r.sent - s.lastRttUpdate >= RTT_UPDATE_INTERVAL
    ensures var t := RoundOf(s, r);
            && t.requests == map[] && t.lastRttUpdate == r.sent
            && s.sequenceNumber < t.sequenceNumber
  {
    TickIssuesOne(s, r.sent);
    ResponseSettlesIt(Step(s, Tick(r.sent, true)), NextNumber(s), r);
  }

  lemma AveragingMovesOn(s: State, now: Time)
    requires s.requests == map[] && 0 < s.sequenceNumber <= WIRE_NUMBERS
    ensures var t := UpdateAverageRtt(s, now);
            && t.requests == map[] && t.lastRttUpdate == s.lastRttUpdate
            && t.sequenceNumber in {s.sequenceNumber, s.sequenceNumber + 1}
  {
    NextWhenNoneOutstanding(s);
  }

  /** Some moment of these rounds, the 65536th at the latest, stalled it. */
  ghost predicate StalledDuring(rounds: seq<Round>) {
    exists j :: 0 <= j <= |rounds| && j <= WIRE_NUMBERS && Stalled(Rounds(rounds[..j]))
  }

  /** All requests are settled, and the counter went up with every round. */
  ghost predicate AllSettled(rounds: seq<Round>, s: State) {
    && s.requests == map[] && |rounds| <= s.sequenceNumber < WIRE_NUMBERS
    && s.lastRttUpdate == SentBefore(rounds, |rounds|)
  }

  ghost predicate SettledOrStalled(rounds: seq<Round>) {
    AllSettled(rounds, Rounds(rounds)) || StalledDuring(rounds)
  }

  lemma NextRound(rounds: seq<Round>, before: seq<Round>, s: State)
    requires |rounds| > 0 && before == rounds[..|rounds| - 1] && s == Rounds(before) && AllSettled(before, s)
    requires rounds[|rounds| - 1].sent - s.lastRttUpdate >= RTT_UPDATE_INTERVAL
    ensures SettledOrStalled(rounds)
  {
    LastSettles(rounds, s);
    CounterWentUp(rounds, Rounds(rounds));
  }

  lemma LastSettles(rounds: seq<Round>, before: State)
    requires |rounds| > 0 && before == Rounds(rounds[..|rounds| - 1])
    requires before.requests == map[] && before.sequenceNumber < WIRE_NUMBERS
    requires rounds[|rounds| - 1].sent - before.lastRttUpdate >= RTT_UPDATE_INTERVAL
    ensures Rounds(rounds).requests == map[] && Rounds(rounds).lastRttUpdate == SentBefore(rounds, |rounds|)
    ensures before.sequenceNumber < Rounds(rounds).sequenceNumber
  {
    RoundSettles(before, rounds[|rounds| - 1]);
  }

  lemma LastIsDue(rounds: seq<Round>)
    requires |rounds| > 0 && Due(rounds)
    ensures var n := |rounds| - 1; rounds[n].sent - SentBefore(rounds[..n], n) >= RTT_UPDATE_INTERVAL
  {
    var n := |rounds| - 1;
    assert SentBefore(rounds, n) == SentBefore(rounds[..n], n);
  }

  lemma CounterWentUp(rounds: seq<Round>, s: State)
    requires 0 < |rounds| <= WIRE_NUMBERS && s == Rounds(rounds)
    requires s.requests == map[] && |rounds| <= s.sequenceNumber && s.lastRttUpdate == SentBefore(rounds, |rounds|)
    ensures SettledOrStalled(rounds)
  {
    assert rounds[..|rounds|] == rounds;
    if s.sequenceNumber >= WIRE_NUMBERS {
      assert Stalled(s);
    }
  }

  lemma StalledEarlier(rounds: seq<Round>)
    requires |rounds| > 0 && StalledDuring(rounds[..|rounds| - 1])
    ensures StalledDuring(rounds)
  {
    var before := rounds[..|rounds| - 1];
    var j :| 0 <= j <= |before| && j <= WIRE_NUMBERS && Stalled(Rounds(before[..j]));
    assert rounds[..j] == before[..j];
  }

  lemma NoRound(rounds: seq<Round>)
    requires |rounds| == 0
    ensures SettledOrStalled(rounds)
  {
  }

  lemma {:induction false} RoundsSettleOrStall(rounds: seq<Round>)
    requires Due(rounds)
    ensures SettledOrStalled(rounds)
  {
    if |rounds| == 0 {
      NoRound(rounds);
    } else {
      DueBefore(rounds);
      RoundsSettleOrStall(rounds[..|rounds| - 1]);
      if StalledDuring(rounds[..|rounds| - 1]) {
        StalledEarlier(rounds);
      } else {
        LastIsDue(rounds);
        NextRound(rounds, rounds[..|rounds| - 1], Rounds(rounds[..|rounds| - 1]));
      }
    }
  }

  /** A client that answers every request at once is stalled as well, after 65536 requests at the latest, which take 76
      minutes at the shortest interval. */
  lemma PromptClientStalls(rounds: seq<Round>)
    requires Due(rounds) && |rounds| >= WIRE_NUMBERS
    ensures StalledDuring(rounds)
  {
    RoundsSettleOrStall(rounds);
  }
}

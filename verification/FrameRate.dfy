/** The frame rate the server asks of its encoder, estimated from round trips and frame delay. */
module FrameRate {
  import opened Basics

  const MILLISECOND := 1_000_000
  const AVERAGE_PERIOD := 1000 * MILLISECOND
  const MAXIMUM_FRAME_RATE := 120

  datatype Estimate = Estimate(time: int, value: int)

  /** `signals` counts the announcements of a changed frame rate. */
  datatype State = State(estimates: seq<Estimate>, lastEstimation: int, requested: int, signals: nat)

  const INITIAL := State([], 0, 60, 0)

  datatype Reading = Reading(averageRtt: int, frameDelay: int, now: int)

  /** How many frames fit a second at this round trip and with this many frames under way. */
  function EstimateOf(r: Reading): Estimate {
    var rtt := Max(r.averageRtt / MILLISECOND, 1);
    DelayIsPositive(rtt, Max(r.frameDelay, 1));
    Estimate(r.now, Min(1000 / (rtt * Max(r.frameDelay, 1)), MAXIMUM_FRAME_RATE))
  }

  lemma DelayIsPositive(rtt: int, delay: int)
    requires rtt >= 1 && delay >= 1
    ensures rtt * delay >= 1
  {
  }

  predicate FromTheFuture(e: Estimate, now: int) {
    e.time - now > AVERAGE_PERIOD
  }

  /** What the removal before averaging leaves. */
  function Kept(estimates: seq<Estimate>, now: int): seq<Estimate> {
    if |estimates| == 0 then []
    else
      var last := estimates[|estimates| - 1];
      Kept(estimates[..|estimates| - 1], now) + if FromTheFuture(last, now) then [] else [last]
  }

  function Sum(estimates: seq<Estimate>, n: nat): int
    requires n <= |estimates|
  {
    if n == 0 then 0 else Sum(estimates, n - 1) + estimates[n - 1].value
  }

  function Average(estimates: seq<Estimate>): int
    requires |estimates| > 0
  {
    Sum(estimates, |estimates|) / |estimates|
  }

  /** Half the average, for headroom, but at least one. */
  function TargetRate(average: int): real {
    if average as real * 0.5 > 1.0 then average as real * 0.5 else 1.0
  }

  lemma KeptLast(estimates: seq<Estimate>, e: Estimate, now: int)
    ensures Kept(estimates + [e], now) == Kept(estimates, now) + if FromTheFuture(e, now) then [] else [e]
  {
  }

  function Update(s: State, r: Reading): State {
    var appended := s.estimates + [EstimateOf(r)];
    if r.now - s.lastEstimation < AVERAGE_PERIOD then s.(estimates := appended)
    else
      KeptLast(s.estimates, EstimateOf(r), r.now);
      var kept := Kept(appended, r.now);
      var rate := TargetRate(Average(kept));
      var updated := s.(estimates := kept, lastEstimation := r.now);
      if rate == s.requested as real then updated
      else updated.(requested := rate.Floor, signals := s.signals + 1)
  }

  class Estimator {
    var frameRateEstimates: seq<Estimate>
    var lastFrameRateEstimation: int
    var requestedFrameRate: int
    ghost var signals: nat

    ghost function Model(): State
      reads this
    {
      State(frameRateEstimates, lastFrameRateEstimation, requestedFrameRate, signals)
    }

    constructor ()
      ensures Model() == INITIAL
    {
      frameRateEstimates, lastFrameRateEstimation, requestedFrameRate, signals := [], 0, 60, 0;
    }

    method UpdateRequestedFrameRate(r: Reading)
      modifies this
      ensures Model() == Update(old(Model()), r)
    {
      frameRateEstimates := frameRateEstimates + [EstimateOf(r)];
      if r.now - lastFrameRateEstimation < AVERAGE_PERIOD {
        return;
      }
      lastFrameRateEstimation := r.now;
      KeptLast(old(frameRateEstimates), EstimateOf(r), r.now);
      frameRateEstimates := Kept(frameRateEstimates, r.now);
      var sum := 0;
      for i := 0 to |frameRateEstimates|
        invariant sum == Sum(frameRateEstimates, i)
      {
        sum := sum + frameRateEstimates[i].value;
      }
      var frameRate := TargetRate(sum / |frameRateEstimates|);
      if frameRate != requestedFrameRate as real {
        requestedFrameRate := frameRate.Floor;
        signals := signals + 1;
      }
    }
  }

  function Run(readings: seq<Reading>): State {
    if |readings| == 0 then INITIAL else Update(Run(readings[..|readings| - 1]), readings[|readings| - 1])
  }

  ghost predicate Bounded(s: State) {
    && 1 <= s.requested <= 60
    && AllBounded(s.estimates)
  }

  lemma EstimateIsBounded(r: Reading)
    ensures 0 <= EstimateOf(r).value <= MAXIMUM_FRAME_RATE
  {
  }

  /** The estimate is the largest rate, up to the maximum, at which each of the frames under way gets a round trip
      within one second. */
  lemma EstimateIsLargest(r: Reading)
    ensures var load, rate := Max(r.averageRtt / 1_000_000, 1) * Max(r.frameDelay, 1), EstimateOf(r).value;
            && rate * load <= 1000 && rate <= 120
            && (rate < 120 ==> (rate + 1) * load > 1000)
    ensures EstimateOf(r).time == r.now
  {
    var load := Max(r.averageRtt / MILLISECOND, 1) * Max(r.frameDelay, 1);
    DelayIsPositive(Max(r.averageRtt / MILLISECOND, 1), Max(r.frameDelay, 1));
    QuotientIsLargest(1000, load, EstimateOf(r).value);
  }

  lemma QuotientIsLargest(total: int, load: int, rate: int)
    requires load >= 1 && total >= 0 && rate == Min(total / load, MAXIMUM_FRAME_RATE)
    ensures rate * load <= total
    ensures rate < MAXIMUM_FRAME_RATE ==> (rate + 1) * load > total
  {
    assert total == (total / load) * load + total % load;
    assert rate <= total / load ==> rate * load <= (total / load) * load;
  }

  lemma {:induction false} KeptIsPart(estimates: seq<Estimate>, now: int)
    ensures forall e :: e in Kept(estimates, now) <==> e in estimates && !FromTheFuture(e, now)
    ensures (forall i :: 0 <= i < |estimates| ==> !FromTheFuture(estimates[i], now)) ==>
              Kept(estimates, now) == estimates
  {
    if |estimates| > 0 {
      var front, last := estimates[..|estimates| - 1], estimates[|estimates| - 1];
      assert estimates == front + [last];
      KeptIsPart(front, now);
    }
  }

  lemma {:induction false} SumIsBounded(estimates: seq<Estimate>, n: nat)
    requires n <= |estimates|
    requires forall i :: 0 <= i < n ==> 0 <= estimates[i].value <= MAXIMUM_FRAME_RATE
    ensures 0 <= Sum(estimates, n) <= n * MAXIMUM_FRAME_RATE
  {
    if n > 0 {
      SumIsBounded(estimates, n - 1);
    }
  }

  lemma AverageIsBounded(estimates: seq<Estimate>)
    requires |estimates| > 0 && AllBounded(estimates)
    ensures 0 <= Average(estimates) <= MAXIMUM_FRAME_RATE
  {
    SumIsBounded(estimates, |estimates|);
    QuotientIsBounded(Sum(estimates, |estimates|), |estimates|);
  }

  lemma QuotientIsBounded(sum: int, n: nat)
    requires 0 < n && 0 <= sum <= n * MAXIMUM_FRAME_RATE
    ensures 0 <= sum / n <= MAXIMUM_FRAME_RATE
  {
  }

  lemma TargetIsBounded(average: int)
    requires 0 <= average <= MAXIMUM_FRAME_RATE
    ensures 1.0 <= TargetRate(average) <= 60.0
    ensures 1 <= TargetRate(average).Floor <= 60
    ensures TargetRate(average).Floor == Max(average / 2, 1)
  {
  }

  ghost predicate AllBounded(estimates: seq<Estimate>) {
    forall i :: 0 <= i < |estimates| ==> 0 <= estimates[i].value <= MAXIMUM_FRAME_RATE
  }

  lemma KeptStaysBounded(estimates: seq<Estimate>, now: int)
    requires AllBounded(estimates)
    ensures AllBounded(Kept(estimates, now))
  {
    KeptIsPart(estimates, now);
    var kept := Kept(estimates, now);
    forall i | 0 <= i < |kept|
      ensures 0 <= kept[i].value <= MAXIMUM_FRAME_RATE
    {
      assert kept[i] in estimates;
    }
  }

  lemma AppendedIsKept(estimates: seq<Estimate>, r: Reading)
    ensures |Kept(estimates + [EstimateOf(r)], r.now)| > 0
  {
    KeptLast(estimates, EstimateOf(r), r.now);
  }

  /** The list averaged is not empty and bounded. */
  lemma KeptIsBounded(estimates: seq<Estimate>, r: Reading)
    requires AllBounded(estimates)
    ensures var kept := Kept(estimates + [EstimateOf(r)], r.now);
            |kept| > 0 && AllBounded(kept) && 0 <= Average(kept) <= MAXIMUM_FRAME_RATE
  {
    var appended := estimates + [EstimateOf(r)];
    AppendedIsKept(estimates, r);
    EstimateIsBounded(r);
    KeptStaysBounded(appended, r.now);
    AverageIsBounded(Kept(appended, r.now));
  }

  lemma StepIsBounded(s: State, r: Reading)
    requires Bounded(s)
    ensures Bounded(Update(s, r))
  {
    EstimateIsBounded(r);
    KeptIsBounded(s.estimates, r);
    TargetIsBounded(Average(Kept(s.estimates + [EstimateOf(r)], r.now)));
  }

  /** Whatever the readings, the requested frame rate stays between 1 and 60 and every estimate between 0 and 120. */
  lemma {:induction false} FrameRateIsBounded(readings: seq<Reading>)
    ensures Bounded(Run(readings))
  {
    if |readings| > 0 {
      FrameRateIsBounded(readings[..|readings| - 1]);
      StepIsBounded(Run(readings[..|readings| - 1]), readings[|readings| - 1]);
    }
  }

  ghost predicate ClockGoesForward(readings: seq<Reading>) {
    forall i, j :: 0 <= i < j < |readings| ==> readings[i].now <= readings[j].now
  }

  lemma NothingIsRemoved(s: State, r: Reading)
    requires forall i :: 0 <= i < |s.estimates| ==> s.estimates[i].time <= r.now
    ensures Update(s, r).estimates == s.estimates + [EstimateOf(r)]
  {
    KeptIsPart(s.estimates + [EstimateOf(r)], r.now);
  }

  function EstimatesOf(readings: seq<Reading>): seq<Estimate> {
    seq(|readings|, i requires 0 <= i < |readings| => EstimateOf(readings[i]))
  }

  /** With a clock that is never set back, no estimate is ever removed: the average is over the whole run, not over the
      last second. */
  lemma {:induction false} EstimatesAreNeverRemoved(readings: seq<Reading>)
    requires ClockGoesForward(readings)
    ensures Run(readings).estimates == EstimatesOf(readings)
  {
    if |readings| > 0 {
      var before, r := readings[..|readings| - 1], readings[|readings| - 1];
      EstimatesAreNeverRemoved(before);
      NothingIsRemoved(Run(before), r);
      assert EstimatesOf(readings) == EstimatesOf(before) + [EstimateOf(r)];
    }
  }

  /** Under such a clock, what is averaged is at most a second old exactly as long as the first reading is. */
  lemma EstimatesAreRecentIff(readings: seq<Reading>)
    requires |readings| > 0 && ClockGoesForward(readings)
    ensures var now := readings[|readings| - 1].now;
            (forall e :: e in Run(readings).estimates ==> now - e.time <= AVERAGE_PERIOD) <==>
              now - readings[0].now <= AVERAGE_PERIOD
  {
    EstimatesAreNeverRemoved(readings);
    assert EstimatesOf(readings)[0] == EstimateOf(readings[0]);
  }

  /** A change is announced although the rate stays the same exactly when the average is odd, above two, and half of it,
      rounded down, is the rate already requested. */
  lemma AnnouncedWithoutChangeIff(s: State, r: Reading)
    requires Bounded(s) && r.now - s.lastEstimation >= AVERAGE_PERIOD
    ensures var t, kept := Update(s, r), Kept(s.estimates + [EstimateOf(r)], r.now);
            && |kept| > 0
            && t.requested == Max(Average(kept) / 2, 1)
            && (t.signals > s.signals && t.requested == s.requested <==>
                Average(kept) > 2 && Average(kept) % 2 == 1 && Average(kept) / 2 == s.requested)
  {
  }

  /** Once a second, a round trip of nine milliseconds and no frame delay: an estimate of 111. */
  function SteadyReadings(n: nat): seq<Reading> {
    seq(n, i requires 0 <= i < n => Reading(9 * MILLISECOND, 0, (i + 1) * AVERAGE_PERIOD))
  }

  lemma {:induction false} SumOfEqual(estimates: seq<Estimate>, n: nat, value: int)
    requires n <= |estimates| && forall i :: 0 <= i < n ==> estimates[i].value == value
    ensures Sum(estimates, n) == n * value
  {
    if n > 0 {
      SumOfEqual(estimates, n - 1, value);
    }
  }

  lemma AverageOfEqual(estimates: seq<Estimate>, value: nat)
    requires |estimates| > 0 && forall i :: 0 <= i < |estimates| ==> estimates[i].value == value
    ensures Average(estimates) == value
  {
    SumOfEqual(estimates, |estimates|, value);
    QuotientOfMultiple(|estimates|, value);
  }

  lemma QuotientOfMultiple(n: int, value: nat)
    requires n > 0
    ensures n * value / n == value
  {
    var q := n * value / n;
    MultiplesGrow(n, value + 1, q);
    MultiplesGrow(n, q + 1, value);
  }

  lemma MultiplesGrow(n: int, a: int, b: int)
    requires n > 0
    ensures a <= b ==> n * a <= n * b
  {
  }

  lemma SteadyEstimate(now: int)
    ensures EstimateOf(Reading(9 * MILLISECOND, 0, now)) == Estimate(now, 111)
  {
    assert 9 * MILLISECOND / MILLISECOND == 9;
  }

  /** After `n` such readings: `n` announcements, and every estimate is the same. */
  ghost predicate Steady(s: State, n: nat) {
    && s.signals == n && s.lastEstimation == n * AVERAGE_PERIOD && (n > 0 ==> s.requested == 55)
    && forall i :: 0 <= i < |s.estimates| ==>
         s.estimates[i].value == 111 && s.estimates[i].time <= s.lastEstimation
  }

  lemma SteadyStep(s: State, n: nat)
    requires Steady(s, n)
    ensures Steady(Update(s, Reading(9 * MILLISECOND, 0, (n + 1) * AVERAGE_PERIOD)), n + 1)
  {
    var r := Reading(9 * MILLISECOND, 0, (n + 1) * AVERAGE_PERIOD);
    SteadyEstimate(r.now);
    NothingIsRemoved(s, r);
    AverageOfEqual(s.estimates + [EstimateOf(r)], 111);
  }

  /** Readings that never change make the program announce a changed frame rate every second. */
  lemma {:induction false} SteadyReadingsAnnounceEverySecond(n: nat)
    ensures Steady(Run(SteadyReadings(n)), n)
  {
    if n > 0 {
      SteadyReadingsAnnounceEverySecond(n - 1);
      SteadyStep(Run(SteadyReadings(n - 1)), n - 1);
      SteadyLast(n);
    }
  }

  lemma SteadyLast(n: nat)
    requires n > 0
    ensures Run(SteadyReadings(n)) ==
            Update(Run(SteadyReadings(n - 1)), Reading(9 * MILLISECOND, 0, n * AVERAGE_PERIOD))
  {
    var readings := SteadyReadings(n);
    assert readings[..n - 1] == SteadyReadings(n - 1);
  }
}

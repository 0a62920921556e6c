/** What one update of the frame rate does, without the functions that compute it. */
module FrameRateMeaning {
  import opened Basics
  import opened Sums
  import opened FrameRate

  /** Each estimate stays in the list on its own account, exactly if it is at most a second ahead of the clock, and they
      stay in order. */
  lemma {:induction false} KeptIsWhatIsNotAhead(a: seq<Estimate>, b: seq<Estimate>, e: Estimate, now: int)
    ensures Kept([e], now) == if e.time - now <= 1_000_000_000 then [e] else []
    ensures Kept(a + b, now) == Kept(a, now) + Kept(b, now)
    decreases |b|
  {
    KeptOne([e], now);
    if |b| == 0 {
      assert a + b == a;
    } else {
      KeptIsWhatIsNotAhead(a, b[..|b| - 1], e, now);
      assert (a + b)[..|a + b| - 1] == a + b[..|b| - 1];
    }
  }

  lemma KeptOne(one: seq<Estimate>, now: int)
    requires |one| == 1
    ensures Kept(one, now) == if one[0].time - now <= 1_000_000_000 then one else []
  {
    assert Kept(one[..0], now) == [];
  }

  const VALUE: Estimate -> int := (e: Estimate) => e.value

  lemma {:induction false} SumIsTheTotal(total: seq<Estimate> -> int, estimates: seq<Estimate>, n: nat)
    requires AddsUp(total, VALUE) && n <= |estimates|
    ensures total(estimates[..n]) == Sum(estimates, n)
  {
    if n == 0 {
      NothingAddsUpToZero(total, VALUE, estimates[..n]);
    } else {
      SumIsTheTotal(total, estimates, n - 1);
      assert estimates[..n] == estimates[..n - 1] + [estimates[n - 1]];
      assert VALUE(estimates[n - 1]) == estimates[n - 1].value;
    }
  }

  lemma AverageIsTheMean(total: seq<Estimate> -> int, estimates: seq<Estimate>)
    requires AddsUp(total, VALUE) && |estimates| > 0
    ensures IsMean(total, estimates, Average(estimates))
  {
    SumIsTheTotal(total, estimates, |estimates|);
    assert estimates[..|estimates|] == estimates;
    QuotientIsMean(total, estimates);
  }

  /** Half the mean, at least one, is what is requested; a change is announced unless exactly that was requested before.
      */
  ghost predicate Requests(s: State, mean: int, t: State) {
    && t.requested == Max(mean / 2, 1)
    && t.signals == s.signals + if mean == 2 * s.requested || (mean <= 2 && s.requested == 1) then 0 else 1
  }

  /** An update appends its estimate. Less than a second after the last averaging that is all; otherwise the list is
      cleaned up, and the rate requested is half its mean. */
  lemma WhatAnUpdateDoes(s: State, r: Reading, total: seq<Estimate> -> int)
    requires Bounded(s) && AddsUp(total, VALUE)
    ensures var t, e := Update(s, r), EstimateOf(r);
            if r.now - s.lastEstimation < 1_000_000_000 then t == s.(estimates := s.estimates + [e])
            else
              && t.estimates == Kept(s.estimates, r.now) + [e] && t.lastEstimation == r.now
              && exists mean :: IsMean(total, t.estimates, mean) && Requests(s, mean, t)
  {
    if r.now - s.lastEstimation >= 1_000_000_000 {
      KeptIsWhatIsNotAhead(s.estimates, [EstimateOf(r)], EstimateOf(r), r.now);
      KeptIsBounded(s.estimates, r);
      var kept := Kept(s.estimates + [EstimateOf(r)], r.now);
      AverageIsTheMean(total, kept);
      TargetIsRequested(s, r, Average(kept));
    }
  }

  lemma TargetIsRequested(s: State, r: Reading, mean: int)
    requires Bounded(s) && r.now - s.lastEstimation >= 1_000_000_000
    requires mean == Average(Kept(s.estimates + [EstimateOf(r)], r.now)) && 0 <= mean <= 120
    requires |Kept(s.estimates + [EstimateOf(r)], r.now)| > 0
    ensures Requests(s, mean, Update(s, r))
  {
    TargetIsBounded(mean);
  }
}

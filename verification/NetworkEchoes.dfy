/** Round trips with a client that echoes: every response carries the low 16 bits of the number of a request it
    received. */
module NetworkEchoes {
  import opened Basics
  import opened NetworkState
  import opened NetworkRuns

  /** A request as it was issued. */
  datatype Issue = Issue(number: uint32, time: Time)

  /** A response that was taken: which request the client echoed, which one it was taken for, and the time that the
      round trip was measured from. Requests are named by their position among all issued. */
  datatype Settlement = Settlement(echoed: nat, settled: nat, start: Time)

  datatype Exchange = Exchange(state: State, issues: seq<Issue>, settlements: seq<Settlement>)

  const START := Exchange(INITIAL, [], [])

  datatype Move = Own(event: Event) | Echo(request: nat, now: Time, later: Time)

  predicate IsMove(m: Move) {
    m.Own? ==> !m.event.Response?
  }

  function WireNumber(number: uint32): uint32 {
    number % WIRE_NUMBERS
  }

  /** The last request issued under a number, or the number of requests if there is none. */
  function LastIssue(issues: seq<Issue>, number: uint32, n: nat): nat
    requires n <= |issues|
  {
    if n == 0 then |issues| else if issues[n - 1].number == number then n - 1 else LastIssue(issues, number, n - 1)
  }

  function Owner(y: Exchange, number: uint32): nat {
    LastIssue(y.issues, number, |y.issues|)
  }

  function Step(y: Exchange, m: Move): Exchange {
    match m
    case Own(e) =>
      var after := NetworkRuns.Step(y.state, e);
      y.(state := after,
         issues := if e.Tick? && after != y.state then y.issues + [Issue(NextNumber(y.state), e.now)] else y.issues)
    case Echo(k, now, later) =>
      if k >= |y.issues| then y
      else
        var number := WireNumber(y.issues[k].number);
        var after := y.(state := OnRttMeasureResponse(y.state, number, now, later));
        if number !in y.state.requests then after
        else after.(settlements := y.settlements + [Settlement(k, Owner(y, number), y.state.requests[number])])
  }

  function Run(moves: seq<Move>): Exchange {
    if |moves| == 0 then START else Step(Run(moves[..|moves| - 1]), moves[|moves| - 1])
  }

  // In every run.

  /** An outstanding number belongs to the last request issued under it, and carries that request's time. */
  ghost predicate Owned(y: Exchange) {
    forall n :: n in y.state.requests ==>
      Owner(y, n) < |y.issues| && y.issues[Owner(y, n)] == Issue(n, y.state.requests[n])
  }

  /** `k` is the last request issued under its number. */
  ghost predicate IsLast(issues: seq<Issue>, k: nat) {
    k < |issues| && forall j :: k < j < |issues| ==> issues[j].number != issues[k].number
  }

  lemma {:induction false} LastIssueIsLast(issues: seq<Issue>, k: nat, n: nat)
    requires k < n <= |issues| && forall j :: k < j < n ==> issues[j].number != issues[k].number
    ensures LastIssue(issues, issues[k].number, n) == k
  {
    if k < n - 1 {
      LastIssueIsLast(issues, k, n - 1);
    }
  }

  lemma {:induction false} LastIssueOfNumber(issues: seq<Issue>, number: uint32, n: nat)
    requires n <= |issues|
    ensures var k := LastIssue(issues, number, n);
            && (k < n || k == |issues|)
            && (k < n ==> issues[k].number == number && forall j :: k < j < n ==> issues[j].number != number)
  {
    if n > 0 && issues[n - 1].number != number {
      LastIssueOfNumber(issues, number, n - 1);
    }
  }

  lemma {:induction false} LastIssueSkips(issues: seq<Issue>, next: Issue, number: uint32, n: nat)
    requires n <= |issues| && next.number != number && LastIssue(issues, number, n) < |issues|
    ensures LastIssue(issues + [next], number, n) == LastIssue(issues, number, n)
  {
    if n > 0 && issues[n - 1].number != number {
      LastIssueSkips(issues, next, number, n - 1);
    }
  }

  lemma OwnedNext(y: Exchange, issue: Issue, z: Exchange)
    requires Owned(y) && z.issues == y.issues + [issue]
    requires z.state.requests == y.state.requests[issue.number := issue.time]
    ensures Owned(z)
  {
    forall n | n in z.state.requests
      ensures Owner(z, n) < |z.issues| && z.issues[Owner(z, n)] == Issue(n, z.state.requests[n])
    {
      if n != issue.number {
        LastIssueSkips(y.issues, issue, n, |y.issues|);
      }
    }
  }

  /** What a move does to the outstanding requests and to the counter. */
  ghost predicate Moved(y: Exchange, m: Move, z: Exchange) {
    var s, t := y.state, z.state;
    match m
    case Own(e) =>
      if z.issues == y.issues then
        && t.requests == s.requests
        && (t.sequenceNumber == s.sequenceNumber || t.sequenceNumber == Following(NextNumber(s)))
      else
        && e.Tick? && z.issues == y.issues + [Issue(NextNumber(s), e.now)]
        && t.requests == s.requests[NextNumber(s) := e.now]
        && t.sequenceNumber == Following(NextNumber(s))
    case Echo(k, _, _) =>
      && z.issues == y.issues
      && if k >= |y.issues| then t == s
         else
           var kept := s.(requests := s.requests - {WireNumber(y.issues[k].number)});
           && t.requests == kept.requests
           && (t.sequenceNumber == s.sequenceNumber || t.sequenceNumber == Following(NextNumber(kept)))
  }

  lemma MoveEffect(y: Exchange, m: Move)
    requires IsMove(m)
    ensures Moved(y, m, Step(y, m))
  {
    if m.Echo? && m.request < |y.issues| {
      var number := WireNumber(y.issues[m.request].number);
      assert number !in y.state.requests ==> y.state.requests - {number} == y.state.requests;
    }
  }

  lemma {:induction false} OwnedAlways(moves: seq<Move>)
    requires forall i :: 0 <= i < |moves| ==> IsMove(moves[i])
    ensures Owned(Run(moves))
  {
    if |moves| > 0 {
      var before, m := moves[..|moves| - 1], moves[|moves| - 1];
      OwnedAlways(before);
      var y, z := Run(before), Step(Run(before), m);
      MoveEffect(y, m);
      if z.issues != y.issues {
        OwnedNext(y, Issue(NextNumber(y.state), m.event.now), z);
      }
    }
  }

  lemma EchoRecords(y: Exchange, k: nat, now: Time, later: Time)
    requires k < |y.issues| && WireNumber(y.issues[k].number) in y.state.requests
    ensures var number := WireNumber(y.issues[k].number);
            var taken := Settlement(k, Owner(y, number), y.state.requests[number]);
            Step(y, Echo(k, now, later)).settlements == y.settlements + [taken]
  {
  }

  lemma OwnerIsSelfIff(issues: seq<Issue>, k: nat)
    requires k < |issues| && LastIssue(issues, WireNumber(issues[k].number), |issues|) < |issues|
    ensures LastIssue(issues, WireNumber(issues[k].number), |issues|) == k <==>
              issues[k].number < WIRE_NUMBERS && IsLast(issues, k)
  {
    LastIssueOfNumber(issues, WireNumber(issues[k].number), |issues|);
    if issues[k].number < WIRE_NUMBERS && IsLast(issues, k) {
      LastIssueIsLast(issues, k, |issues|);
    }
  }

  /** An echo that is taken settles the very request it echoes exactly if that request's number fits 16 bits and has not
      been issued again since; and in every case the round trip is measured from the request it is taken for. */
  lemma EchoSettlesItsOwnIff(moves: seq<Move>, k: nat, now: Time, later: Time)
    requires forall i :: 0 <= i < |moves| ==> IsMove(moves[i])
    requires k < |Run(moves).issues|
    requires WireNumber(Run(moves).issues[k].number) in Run(moves).state.requests
    ensures var y, after := Run(moves), Step(Run(moves), Echo(k, now, later)).settlements;
            && |after| == |y.settlements| + 1
            && var s := after[|y.settlements|];
               && s.echoed == k && s.settled < |y.issues| && s.start == y.issues[s.settled].time
               && (s.settled == k <==> y.issues[k].number < WIRE_NUMBERS && IsLast(y.issues, k))
  {
    OwnedAlways(moves);
    EchoRecords(Run(moves), k, now, later);
    OwnerIsSelfIff(Run(moves).issues, k);
  }

  // While the counter fits 16 bits.

  /** The counter never wrapped: numbers were issued in increasing order, and the counter is past them. */
  ghost predicate Rising(y: Exchange) {
    && (forall i, j :: 0 <= i < j < |y.issues| ==> y.issues[i].number < y.issues[j].number)
    && (forall i :: 0 <= i < |y.issues| ==> 0 < y.issues[i].number < y.state.sequenceNumber)
  }

  /** Then the next number is simply the counter. */
  lemma NextIsTheCounter(y: Exchange, s: State)
    requires Owned(y) && Rising(y) && s.sequenceNumber == y.state.sequenceNumber <= WIRE_NUMBERS
    requires s.requests.Keys <= y.state.requests.Keys
    ensures NextNumber(s) == if s.sequenceNumber == 0 then 1 else s.sequenceNumber
  {
    forall n | n in s.requests
      ensures 0 < n < s.sequenceNumber
    {
      assert n in y.state.requests && y.issues[Owner(y, n)].number == n;
    }
    if s.sequenceNumber == 0 {
      assert 1 !in s.requests && Following(0) == 1;
      assert FirstFree(1, Blocked(s.requests) - {0}) == 1;
    }
  }

  lemma RisingStep(y: Exchange, m: Move, z: Exchange)
    requires Owned(y) && Rising(y) && y.state.sequenceNumber <= WIRE_NUMBERS && Moved(y, m, z)
    ensures Rising(z)
  {
    NextIsTheCounter(y, y.state);
    if m.Echo? && m.request < |y.issues| {
      NextIsTheCounter(y, y.state.(requests := y.state.requests - {WireNumber(y.issues[m.request].number)}));
    }
  }

  /** Every response taken settled the request it echoes, was measured from that request's own time, and no request was
      settled twice. */
  ghost predicate SettledOwn(y: Exchange) {
    && (forall i :: 0 <= i < |y.settlements| ==> SettlesOwn(y, y.settlements[i]))
    && (forall i, j :: 0 <= i < j < |y.settlements| ==> y.settlements[i].echoed != y.settlements[j].echoed)
  }

  ghost predicate SettlesOwn(y: Exchange, s: Settlement) {
    && s.settled == s.echoed < |y.issues| && s.start == y.issues[s.echoed].time
    && y.issues[s.echoed].number !in y.state.requests
  }

  lemma EchoSettlesOwn(y: Exchange, k: nat, now: Time, later: Time)
    requires Owned(y) && Rising(y) && y.state.sequenceNumber <= WIRE_NUMBERS && SettledOwn(y)
    ensures SettledOwn(Step(y, Echo(k, now, later)))
  {
    MoveEffect(y, Echo(k, now, later));
    if k < |y.issues| {
      assert WireNumber(y.issues[k].number) == y.issues[k].number;
      LastIssueIsLast(y.issues, k, |y.issues|);
    }
  }

  lemma OwnKeepsSettlements(y: Exchange, e: Event, z: Exchange)
    requires Owned(y) && Rising(y) && y.state.sequenceNumber <= WIRE_NUMBERS && SettledOwn(y)
    requires Moved(y, Own(e), z) && z.settlements == y.settlements
    ensures SettledOwn(z)
  {
    NextIsTheCounter(y, y.state);
    forall i | 0 <= i < |z.settlements|
      ensures SettlesOwn(z, z.settlements[i])
    {
      assert SettlesOwn(y, y.settlements[i]);
    }
  }

  /** The counter stayed within 16 bits: every number handed out fits the wire. */
  ghost predicate CounterFits(moves: seq<Move>) {
    forall i :: 0 <= i <= |moves| ==> Run(moves[..i]).state.sequenceNumber <= WIRE_NUMBERS
  }

  /** While the counter fits 16 bits, each response is matched to its own request, at most once, and measures the time
      since that request was issued. */
  lemma {:induction false} EchoesSettleTheirOwn(moves: seq<Move>)
    requires (forall i :: 0 <= i < |moves| ==> IsMove(moves[i])) && CounterFits(moves)
    ensures Rising(Run(moves)) && SettledOwn(Run(moves))
  {
    if |moves| > 0 {
      var before, m := moves[..|moves| - 1], moves[|moves| - 1];
      CounterFitsBefore(moves);
      EchoesSettleTheirOwn(before);
      OwnedAlways(before);
      var y := Run(before);
      MoveEffect(y, m);
      RisingStep(y, m, Step(y, m));
      if m.Echo? {
        EchoSettlesOwn(y, m.request, m.now, m.later);
      } else {
        OwnKeepsSettlements(y, m.event, Step(y, m));
      }
    }
  }

  lemma CounterFitsBefore(moves: seq<Move>)
    requires |moves| > 0 && CounterFits(moves)
    ensures CounterFits(moves[..|moves| - 1]) && Run(moves[..|moves| - 1]).state.sequenceNumber <= WIRE_NUMBERS
  {
    var before := moves[..|moves| - 1];
    forall i | 0 <= i <= |before|
      ensures Run(before[..i]).state.sequenceNumber <= WIRE_NUMBERS
    {
      assert before[..i] == moves[..i];
    }
    assert before[..|before|] == before;
  }

  // Beyond 16 bits.

  /** `n` requests at the shortest interval, none answered. */
  function Ticks(n: nat): seq<Move>
    requires n <= 2 * WIRE_NUMBERS
  {
    seq(n, i requires 0 <= i < n => Own(Tick((i + 1) * RTT_UPDATE_INTERVAL, true)))
  }

  /** Requests 1 to `n` were issued at that interval and are all outstanding. */
  ghost predicate Ticked(y: Exchange, n: nat)
    requires n <= 2 * WIRE_NUMBERS
  {
    && |y.issues| == n && (forall i :: 0 <= i < n ==> y.issues[i] == Issue(i + 1, (i + 1) * RTT_UPDATE_INTERVAL))
    && (forall m :: m in y.state.requests <==> 1 <= m <= n)
    && (forall m :: m in y.state.requests ==> y.state.requests[m] == m * RTT_UPDATE_INTERVAL)
    && y.state.sequenceNumber == (if n == 0 then 0 else n + 1)
    && y.state.lastRttUpdate == n * RTT_UPDATE_INTERVAL
    && y.state.measurements == [] && y.settlements == []
  }

  lemma NextTickNumber(s: State, n: nat)
    requires n <= WIRE_NUMBERS && s.sequenceNumber == (if n == 0 then 0 else n + 1)
    requires forall m :: m in s.requests <==> 1 <= m <= n
    ensures NextNumber(s) == n + 1
  {
    if n == 0 {
      assert s.requests.Keys == {};
      var zero: set<uint32> := {0};
      assert Blocked(s.requests) == zero && Following(0) == 1;
      assert FirstFree(0, zero) == FirstFree(1, zero - {0}) == 1;
    }
  }

  lemma TicksOnce(y: Exchange, n: nat)
    requires n <= WIRE_NUMBERS && Ticked(y, n)
    ensures Ticked(Step(y, Own(Tick((n + 1) * RTT_UPDATE_INTERVAL, true))), n + 1)
  {
    NextTickNumber(y.state, n);
  }

  lemma {:induction false} TicksIssueInOrder(n: nat)
    requires n <= WIRE_NUMBERS + 1
    ensures Ticked(Run(Ticks(n)), n)
  {
    if n > 0 {
      TicksIssueInOrder(n - 1);
      TicksOnce(Run(Ticks(n - 1)), n - 1);
      assert Ticks(n)[..n - 1] == Ticks(n - 1);
    }
  }

  /** After 65537 unanswered requests, the echo of the last one is taken for the first, issued more than an hour
      earlier: the first is settled, the last stays outstanding, and the false round trip is the average reported. */
  lemma LateEchoSettlesTheFirstRequest()
    ensures var n := WIRE_NUMBERS + 1;
            var now := (n + 1) * RTT_UPDATE_INTERVAL;
            var y, z := Run(Ticks(n)), Step(Run(Ticks(n)), Echo(n - 1, now, now));
            && |y.issues| == n && y.issues[n - 1] == Issue(n, now - RTT_UPDATE_INTERVAL)
            && z.settlements == [Settlement(n - 1, 0, RTT_UPDATE_INTERVAL)]
            && n in z.state.requests && 1 !in z.state.requests
            && z.state.averageRtt == n * RTT_UPDATE_INTERVAL
  {
    var n := WIRE_NUMBERS + 1;
    var y := Run(Ticks(n));
    TicksIssueInOrder(n);
    LastIssueIsLast(y.issues, 0, n);
    EchoOfTheLast(y, n);
  }

  lemma EchoOfTheLast(y: Exchange, n: nat)
    requires n == WIRE_NUMBERS + 1 && Ticked(y, n)
    ensures var now := (n + 1) * RTT_UPDATE_INTERVAL;
            var z := Step(y, Echo(n - 1, now, now));
            && z.settlements == [Settlement(n - 1, Owner(y, 1), RTT_UPDATE_INTERVAL)]
            && n in z.state.requests && 1 !in z.state.requests
            && z.state.averageRtt == n * RTT_UPDATE_INTERVAL
  {
    var now := (n + 1) * RTT_UPDATE_INTERVAL;
    assert WireNumber(y.issues[n - 1].number) == 1 && y.state.requests[1] == RTT_UPDATE_INTERVAL;
    EchoRecords(y, n - 1, now, now);
    LoneMeasurement(y.state.(requests := y.state.requests - {1}).Log(RttMatched(1)), now, now - RTT_UPDATE_INTERVAL);
  }

  lemma LoneMeasurement(s: State, now: Time, roundTrip: int)
    ensures var t := UpdateAverageRtt(s.(measurements := [Measurement(now, roundTrip)]), now);
            t.averageRtt == roundTrip && t.requests == s.requests
  {
    var window := [Measurement(now, roundTrip)];
    assert window[..0] == [];
    assert Fresh(window, now) == Fresh(window[..0], now) + window == window;
    assert Sum(window, 1) == roundTrip;
  }
}

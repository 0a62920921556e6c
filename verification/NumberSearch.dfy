/** The search for an unused sequence number. */
module NumberSearch {
  import opened Basics
  import opened NetworkState

  /** The number `k` steps after `start`. */
  function Ahead(start: uint32, k: nat): uint32 {
    (start + k) % NUMBERS
  }

  lemma AheadApart(start: uint32, j: nat, k: nat)
    requires j < k < j + NUMBERS
    ensures Ahead(start, j) != Ahead(start, k)
  {
  }

  lemma AheadFollows(start: uint32, k: nat)
    ensures Following(Ahead(start, k)) == Ahead(start, k + 1)
  {
  }

  /** `left` is what remains of `blocked` after the search passed `k` blocked numbers. */
  ghost predicate PassedBy(start: uint32, blocked: set<uint32>, left: set<uint32>, k: nat) {
    && left <= blocked
    && (forall x :: x in blocked - left ==> exists j: nat :: j < k && x == Ahead(start, j))
    && (forall j: nat :: j < k ==> Ahead(start, j) in blocked)
  }

  lemma NotPassedTwice(start: uint32, blocked: set<uint32>, left: set<uint32>, k: nat)
    requires PassedBy(start, blocked, left, k) && k < NUMBERS && Ahead(start, k) in blocked
    ensures Ahead(start, k) in left
    ensures PassedBy(start, blocked, left - {Ahead(start, k)}, k + 1)
    ensures |left - {Ahead(start, k)}| == |left| - 1
    ensures Following(Ahead(start, k)) == Ahead(start, k + 1)
  {
    var number := Ahead(start, k);
    if number !in left {
      assert number in blocked - left;
      var j: nat :| j < k && number == Ahead(start, j);
      AheadApart(start, j, k);
    }
    AheadFollows(start, k);
    forall x | x in blocked - (left - {Ahead(start, k)})
      ensures exists j: nat :: j < k + 1 && x == Ahead(start, j)
    {
      if x in blocked - left {
        var j: nat :| j < k && x == Ahead(start, j);
        assert j < k + 1;
      } else {
        assert x == Ahead(start, k);
      }
    }
  }

  /** The search has passed `k` blocked numbers and goes on to the same answer. */
  ghost predicate Searching(start: uint32, blocked: set<uint32>, left: set<uint32>, k: nat) {
    && PassedBy(start, blocked, left, k) && |left| == |blocked| - k
    && FirstFree(Ahead(start, k), left) == FirstFree(start, blocked)
  }

  lemma SearchBegins(start: uint32, blocked: set<uint32>)
    ensures Ahead(start, 0) == start && Searching(start, blocked, blocked, 0)
  {
  }

  lemma SearchGoesOn(start: uint32, blocked: set<uint32>, left: set<uint32>, k: nat)
    requires Searching(start, blocked, left, k) && |blocked| < NUMBERS && Ahead(start, k) in blocked
    ensures Ahead(start, k) in left
    ensures Searching(start, blocked, left - {Ahead(start, k)}, k + 1)
    ensures Following(Ahead(start, k)) == Ahead(start, k + 1)
  {
    NotPassedTwice(start, blocked, left, k);
  }

  lemma SearchEnds(start: uint32, blocked: set<uint32>, left: set<uint32>, k: nat)
    requires Searching(start, blocked, left, k) && Ahead(start, k) !in blocked
    ensures Ahead(start, k) == FirstFree(start, blocked)
  {
  }

  /** The answer lies at most as many steps ahead as there are blocked numbers, and all numbers passed are blocked. */
  ghost predicate IsFirstFree(start: uint32, blocked: set<uint32>, k: nat, number: uint32) {
    && k <= |blocked| && number == Ahead(start, k) && number !in blocked
    && forall j: nat :: j < k ==> Ahead(start, j) in blocked
  }

  lemma {:induction false} SearchFrom(start: uint32, blocked: set<uint32>, left: set<uint32>, k: nat)
    returns (steps: nat)
    requires PassedBy(start, blocked, left, k) && |left| == |blocked| - k && |blocked| < NUMBERS
    ensures IsFirstFree(start, blocked, steps, FirstFree(Ahead(start, k), left))
    decreases |left|
  {
    var number := Ahead(start, k);
    if number in blocked {
      NotPassedTwice(start, blocked, left, k);
      steps := SearchFrom(start, blocked, left - {number}, k + 1);
    } else {
      steps := k;
    }
  }

  /** Pigeonhole: unless every number is blocked, the search finds the first that is not. */
  lemma SearchFindsFirstFree(start: uint32, blocked: set<uint32>) returns (steps: nat)
    requires |blocked| < NUMBERS
    ensures IsFirstFree(start, blocked, steps, FirstFree(start, blocked))
  {
    assert Ahead(start, 0) == start;
    steps := SearchFrom(start, blocked, blocked, 0);
  }

  /** The number chosen for a request is not zero and not in use; the search passes at most one number more than there
      are requests outstanding, even around the wrap. */
  lemma NextNumberIsUnused(s: State) returns (steps: nat)
    requires |s.requests| < NUMBERS - 1
    ensures NextNumber(s) != 0 && NextNumber(s) !in s.requests
    ensures steps <= |s.requests| + 1 && NextNumber(s) == Ahead(s.sequenceNumber, steps)
    ensures forall j: nat :: j < steps ==> Ahead(s.sequenceNumber, j) == 0 || Ahead(s.sequenceNumber, j) in s.requests
  {
    assert |s.requests.Keys| == |s.requests|;
    assert |Blocked(s.requests)| <= |s.requests| + 1;
    steps := SearchFindsFirstFree(s.sequenceNumber, Blocked(s.requests));
  }

  lemma FewerBlocked(requests: map<uint32, Time>, number: uint32)
    ensures |Blocked(requests - {number})| <= |Blocked(requests)|
  {
    SmallerSet(Blocked(requests - {number}), Blocked(requests));
  }
}

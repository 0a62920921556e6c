/** Totals over sequences, known only by what they add up, and their means. */
module Sums {

  /** `total` adds up the values of the elements. */
  ghost predicate AddsUp<T(!new)>(total: seq<T> -> int, value: T -> int) {
    (forall x :: total([x]) == value(x)) && forall a, b :: total(a + b) == total(a) + total(b)
  }

  /** `mean` is the mean of the values, rounded down. */
  ghost predicate IsMean<T>(total: seq<T> -> int, xs: seq<T>, mean: int) {
    |xs| * mean <= total(xs) < |xs| * (mean + 1)
  }

  lemma NothingAddsUpToZero<T(!new)>(total: seq<T> -> int, value: T -> int, none: seq<T>)
    requires AddsUp(total, value) && |none| == 0
    ensures total(none) == 0
  {
    assert none + none == none;
    assert total(none + none) == total(none) + total(none);
  }

  lemma QuotientIsMean<T>(total: seq<T> -> int, xs: seq<T>)
    requires |xs| > 0
    ensures IsMean(total, xs, total(xs) / |xs|)
  {
    assert total(xs) == |xs| * (total(xs) / |xs|) + total(xs) % |xs|;
  }

  /** There is such a total. */
  function Total<T>(value: T -> int, xs: seq<T>): int {
    if |xs| == 0 then 0 else value(xs[0]) + Total(value, xs[1..])
  }

  lemma {:induction false} TotalOfBoth<T>(value: T -> int, a: seq<T>, b: seq<T>)
    ensures Total(value, a + b) == Total(value, a) + Total(value, b)
  {
    if |a| == 0 {
      assert a + b == b;
    } else {
      FirstOfBoth(value, a, b, a + b);
      TotalOfBoth(value, a[1..], b);
    }
  }

  lemma FirstOfBoth<T>(value: T -> int, a: seq<T>, b: seq<T>, both: seq<T>)
    requires |a| > 0 && both == a + b
    ensures Total(value, both) == value(a[0]) + Total(value, a[1..] + b)
  {
    assert both[1..] == a[1..] + b;
  }

  lemma TotalOfOne<T>(value: T -> int, one: seq<T>)
    requires |one| == 1
    ensures Total(value, one) == value(one[0])
  {
    assert Total(value, one[1..]) == 0;
  }

  lemma TotalAddsUp<T(!new)>(value: T -> int)
    ensures AddsUp((xs: seq<T>) => Total(value, xs), value)
  {
    var total := (xs: seq<T>) => Total(value, xs);
    forall x
      ensures total([x]) == value(x)
    {
      TotalOfOne(value, [x]);
    }
    forall a, b
      ensures total(a + b) == total(a) + total(b)
    {
      TotalOfBoth(value, a, b);
    }
  }
}

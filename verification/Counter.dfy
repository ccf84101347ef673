/** The statistics counters: once a counter scrolls into view it counts up
    from 0 to its target in steps of `ceil(count / 50)`, one step every 20
    ms, and then shows the target. The timer is replaced by a loop that
    records the value shown after each step. */
module Counter {

  const Steps := 50

  /** `Math.ceil(count / 50)`. */
  function Increment(count: int): (inc: int)
    ensures Steps * (inc - 1) < count <= Steps * inc
  {
    if count > 0 then (count + Steps - 1) / Steps else -((-count) / Steps)
  }

  /** The value shown after step `k` (counting from 0): the running total,
      capped at the target. */
  function Shown(count: int, inc: int, k: nat): int {
    if Reached(inc, k + 1) > count then count else Reached(inc, k + 1)
  }

  /** The running total after `n` steps. */
  function Reached(inc: int, n: nat): int {
    n * inc
  }

  lemma ReachedNext(inc: int, n: nat)
    ensures Reached(inc, n + 1) == Reached(inc, n) + inc
  {
  }

  /** The values a counter with target `count` shows, in order: one per
      `updateCount` call. The count-up stops at the first step that reaches
      the target, so only the last two frames show it. */
  method CountUp(count: int) returns (frames: seq<int>)
    ensures |frames| >= 1 && frames[|frames| - 1] == count
    ensures count <= 0 ==> frames == [count]
    ensures count > 0 ==> |frames| - 1 <= Steps
    ensures count > 0 ==> |frames| >= 2 && frames[|frames| - 2] == count
    ensures forall k :: 0 <= k < |frames| - 1 ==> frames[k] == Shown(count, Increment(count), k)
    ensures forall k :: 0 <= k < |frames| ==> frames[k] <= count
    ensures forall j, k :: 0 <= j < k < |frames| ==> frames[j] <= frames[k]
    ensures forall k :: 0 <= k < |frames| - 2 ==> frames[k] < count
  {
    var inc := Increment(count);
    var start := 0;
    frames := [];
    while start < count
      invariant count > 0 ==> inc >= 1
      invariant count <= 0 ==> frames == []
      invariant start == Reached(inc, |frames|)
      invariant count > 0 ==> start <= count - 1 + inc
      invariant count > 0 ==> |frames| <= Steps
      invariant forall k :: 0 <= k < |frames| ==> frames[k] == Shown(count, inc, k)
      invariant forall j, k :: 0 <= j < k < |frames| ==> frames[j] <= frames[k]
      invariant forall k :: 0 <= k < |frames| ==> frames[k] <= count && frames[k] <= start
      invariant forall k :: 0 <= k < |frames| - 1 ==> frames[k] < count
      invariant |frames| > 0 ==> frames[|frames| - 1] == (if start > count then count else start)
      decreases count - start
    {
      StepBound(count, inc, |frames|);
      ReachedNext(inc, |frames|);
      start := start + inc;
      frames := frames + [if start > count then count else start];
    }
    frames := frames + [count];
  }

  /** While the count is still below the target, fewer than fifty steps have
      been taken. */
  lemma StepBound(count: int, inc: int, n: nat)
    requires count > 0 && inc >= 1 && Steps * (inc - 1) < count <= Steps * inc
    requires Reached(inc, n) < count
    ensures n < Steps
  {
    if n >= Steps {
      MulMono(Steps, n, inc);
      assert false;
    }
  }

  lemma MulMono(a: nat, b: nat, c: nat)
    requires a <= b
    ensures a * c <= b * c
  {
  }
}

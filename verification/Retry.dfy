/** `fetchWithRetry`: up to `retries` fetch calls, returning the first
    response that is not a server error and sleeping `1000 * 2^i` ms after
    the failed attempt `i` unless it was the last one.

    The network is a parameter: `net(i)` is what the fetch call of
    attempt `i` produces. Sleeps are recorded as their durations in
    milliseconds. */
module Retry {

  /** What one fetch call produced. */
  datatype Attempt = Response(ok: bool, status: int) | NetworkError

  /** The error an attempt raises when it is not accepted. */
  datatype Failure = ServerError(status: int) | FetchFailed

  /** How `fetchWithRetry` ends: it returns a response, rethrows the last
      error, or, when the loop never runs, returns `undefined`. */
  datatype Outcome = Returned(response: Attempt) | Threw(error: Failure) | Undefined

  /** The outcome, the number of fetch calls and the sleeps, in order. */
  datatype RetryRun = RetryRun(outcome: Outcome, calls: nat, sleeps: seq<nat>)

  /** A response is returned unless it is not ok with a status of 500 or
      more; a network error is never returned. */
  predicate Accepted(a: Attempt) {
    a.Response? && (a.ok || a.status < 500)
  }

  function ErrorOf(a: Attempt): Failure {
    if a.Response? then ServerError(a.status) else FetchFailed
  }

  function Pow2(n: nat): (p: nat)
    ensures p >= 1
  {
    if n == 0 then 1 else 2 * Pow2(n - 1)
  }

  /** The back-off after the failed attempt `i`. */
  function Backoff(i: nat): nat {
    1000 * Pow2(i)
  }

  /** The loop from attempt `i` on, with `attempts` attempts allowed in all. */
  function RunFrom(net: nat -> Attempt, attempts: int, i: nat): (r: RetryRun)
    ensures attempts <= i ==> r == RetryRun(Undefined, 0, [])
    ensures attempts > i ==> 1 <= r.calls <= attempts - i && |r.sleeps| == r.calls - 1
    ensures attempts > i ==> r.outcome != Undefined
    ensures forall j :: 0 <= j < |r.sleeps| ==> r.sleeps[j] == Backoff(i + j)
    ensures forall j :: i <= j < i + r.calls - 1 ==> !Accepted(net(j))
    ensures r.outcome.Returned? ==> r.outcome.response == net(i + r.calls - 1) && Accepted(net(i + r.calls - 1))
    ensures r.outcome.Threw? ==> i + r.calls == attempts && !Accepted(net(attempts - 1))
                                 && r.outcome.error == ErrorOf(net(attempts - 1))
    decreases attempts - i
  {
    if attempts <= i then RetryRun(Undefined, 0, [])
    else if Accepted(net(i)) then RetryRun(Returned(net(i)), 1, [])
    else if i == attempts - 1 then RetryRun(Threw(ErrorOf(net(i))), 1, [])
    else
      var rest := RunFrom(net, attempts, i + 1);
      RetryRun(rest.outcome, rest.calls + 1, [Backoff(i)] + rest.sleeps)
  }

  /** `fetchWithRetry(url, options, retries)` as written. */
  method FetchWithRetry(net: nat -> Attempt, retries: int) returns (r: RetryRun)
    ensures r == RunFrom(net, retries, 0)
    ensures retries <= 0 <==> r.outcome == Undefined
    ensures r.calls <= if retries > 0 then retries else 0
    ensures r.calls >= 1 ==> |r.sleeps| == r.calls - 1
    ensures forall j :: 0 <= j < |r.sleeps| ==> r.sleeps[j] == 1000 * Pow2(j)
    ensures forall j :: 0 <= j < r.calls - 1 ==> !Accepted(net(j))
    ensures r.outcome.Returned? ==> Accepted(r.outcome.response)
  {
    var i: nat := 0;
    var sleeps: seq<nat> := [];
    while i < retries
      invariant retries > 0 ==> i < retries
      invariant retries <= 0 ==> i == 0
      invariant |sleeps| == i
      invariant forall j :: 0 <= j < i ==> sleeps[j] == Backoff(j) && !Accepted(net(j))
      invariant var tail := RunFrom(net, retries, i);
                RunFrom(net, retries, 0) == RetryRun(tail.outcome, tail.calls + i, sleeps + tail.sleeps)
      decreases retries - i
    {
      var a := net(i);
      if Accepted(a) {
        return RetryRun(Returned(a), i + 1, sleeps);
      }
      if i == retries - 1 {
        return RetryRun(Threw(ErrorOf(a)), i + 1, sleeps);
      }
      var rest := RunFrom(net, retries, i + 1);
      assert sleeps + ([Backoff(i)] + rest.sleeps) == (sleeps + [Backoff(i)]) + rest.sleeps;
      sleeps := sleeps + [Backoff(i)];
      i := i + 1;
    }
    assert sleeps + [] == sleeps;
    r := RetryRun(Undefined, 0, sleeps);
  }

  // ---------------------------------------------------------------------------
  // The documented back-off

  /** A network that is always down. */
  function Down(i: nat): Attempt {
    NetworkError
  }

  /** The back-off the code comment promises ("1s, 2s, 4s" for the default
      three retries): three retries after the first attempt, so
      `retries + 1` attempts in all. */
  function DocumentedRetry(net: nat -> Attempt, retries: int): (r: RetryRun)
    ensures r.calls <= if retries >= 0 then retries + 1 else 0
    ensures retries >= 0 && (forall j :: 0 <= j <= retries ==> !Accepted(net(j))) ==> |r.sleeps| == retries
  {
    RunFrom(net, retries + 1, 0)
  }

  /** With the default three retries and the network down, the code sleeps
      1 s and 2 s and gives up after three attempts; the documented
      schedule sleeps 1 s, 2 s and 4 s. */
  lemma DefaultBackoff()
    ensures RunFrom(Down, 3, 0) == RetryRun(Threw(FetchFailed), 3, [1000, 2000])
    ensures DocumentedRetry(Down, 3) == RetryRun(Threw(FetchFailed), 4, [1000, 2000, 4000])
  {
    assert Pow2(2) == 4;
  }
}

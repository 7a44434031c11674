// Retry delays of webhook deliveries (internal/webhook/retry.go). Durations are in nanoseconds.
module Backoff {

  const SECOND: int := 1_000_000_000
  const MINUTE: int := 60 * SECOND
  const HOUR: int := 60 * MINUTE
  const RETRY_DELAYS: seq<int> := [1 * MINUTE, 5 * MINUTE, 30 * MINUTE, 2 * HOUR, 12 * HOUR]
  const DEFAULT_MAX_ATTEMPTS: int := 5
  const JITTER_FACTOR: real := 0.2

  // The delay an attempt count selects, before jitter.
  function BaseDelay(attemptCount: int): int {
    if attemptCount < 0 then RETRY_DELAYS[0]
    else if attemptCount >= |RETRY_DELAYS| then RETRY_DELAYS[|RETRY_DELAYS| - 1]
    else RETRY_DELAYS[attemptCount]
  }

  // The bounds of the jittered delay: 20% below and above.
  function Shortest(attemptCount: int): int {
    BaseDelay(attemptCount) * 4 / 5
  }

  function Longest(attemptCount: int): int {
    BaseDelay(attemptCount) * 6 / 5
  }

  predicate InRange(attemptCount: int, delay: int) {
    Shortest(attemptCount) <= delay <= Longest(attemptCount)
  }

  // NextRetryDelay, for the random number drawn from [0, 1).
  method NextRetryDelay(attemptCount: int, random: real) returns (delay: int)
    requires 0.0 <= random < 1.0
    ensures InRange(attemptCount, delay)
    ensures var count := if attemptCount < 0 then 0 else if attemptCount > 4 then 4 else attemptCount;
            var minutes := [1, 5, 30, 120, 720][count];
            delay == (minutes as real * 60.0e9 * (0.8 + 0.4 * random)).Floor
  {
    var count := attemptCount;
    if count < 0 {
      count := 0;
    }
    if count >= |RETRY_DELAYS| {
      count := |RETRY_DELAYS| - 1;
    }
    var base := RETRY_DELAYS[count];
    var jitterRange := base as real * JITTER_FACTOR;
    var jitter := (random * 2.0 - 1.0) * jitterRange;
    JitterBounds(random * 2.0 - 1.0, jitterRange);
    delay := (base as real + jitter).Floor;
  }

  lemma JitterBounds(factor: real, range: real)
    requires -1.0 <= factor <= 1.0 && range >= 0.0
    ensures -range <= factor * range <= range
  {
  }

  predicate IsExhausted(attemptCount: int, maxAttempts: int) {
    attemptCount >= maxAttempts
  }

  // Whatever the jitter, each of the five delays is longer than the one before it.
  lemma DelaysGrow(k: nat, delay: int, next: int)
    requires k < 4 && InRange(k, delay) && InRange(k + 1, next)
    ensures 0 < delay < next
  {
    assert k == 0 || k == 1 || k == 2 || k == 3;
  }

  function Sum(s: seq<int>): int {
    if s == [] then 0 else Sum(s[..|s| - 1]) + s[|s| - 1]
  }

  method EstimatedMaxDeliveryWindow() returns (window: int)
    ensures window == Sum(RETRY_DELAYS) * 6 / 5
  {
    var total := 0;
    for i := 0 to |RETRY_DELAYS|
      invariant total == Sum(RETRY_DELAYS[..i])
    {
      assert RETRY_DELAYS[..i + 1][..i] == RETRY_DELAYS[..i];
      total := total + RETRY_DELAYS[i];
    }
    assert RETRY_DELAYS[..|RETRY_DELAYS|] == RETRY_DELAYS;
    window := (total as real * 1.2).Floor;
  }

  // Waits the successive counts from one on select.
  ghost predicate Successive(waits: seq<int>) {
    |waits| < DEFAULT_MAX_ATTEMPTS && forall k :: 0 <= k < |waits| ==> InRange(k + 1, waits[k])
  }

  // Such waits stay within the announced window, with the unused first minute to spare.
  lemma SuccessiveFit(waits: seq<int>)
    requires Successive(waits)
    ensures Sum(waits) <= Sum(RETRY_DELAYS) * 6 / 5 - RETRY_DELAYS[0]
  {
    TotalDelay();
    var n := |waits|;
    assert n > 0 ==> InRange(1, waits[0]);
    assert n > 1 ==> InRange(2, waits[1]);
    assert n > 2 ==> InRange(3, waits[2]);
    assert n > 3 ==> InRange(4, waits[3]);
    var padded := waits + seq(4 - n, i => 0);
    SumPadded(waits, 4 - n);
    SumOfFour(padded);
  }

  lemma {:induction false} SumPadded(s: seq<int>, n: nat)
    ensures Sum(s + seq(n, i => 0)) == Sum(s)
  {
    var padded := s + seq(n, i => 0);
    if n == 0 {
      assert padded == s;
    } else {
      SumPadded(s, n - 1);
      assert padded[..|padded| - 1] == s + seq(n - 1, i => 0);
    }
  }

  // The longer a delivery has failed, the longer it waits.
  lemma SuccessiveGrow(waits: seq<int>, k: nat, l: nat)
    requires Successive(waits) && k < l < |waits|
    ensures 0 < waits[k] < waits[l]
    decreases l
  {
    DelaysGrow(l, waits[l - 1], waits[l]);
    if k < l - 1 {
      SuccessiveGrow(waits, k, l - 1);
    }
  }

  lemma SumOfFour(s: seq<int>)
    requires |s| == 4
    ensures Sum(s) == s[0] + s[1] + s[2] + s[3]
  {
    assert s[..3][..2] == s[..2] && s[..2][..1] == s[..1] && s[..1][..0] == [];
    assert Sum(s[..1]) == s[0];
    assert Sum(s[..2]) == s[0] + s[1];
    assert s[..4] == s && Sum(s[..3]) == s[0] + s[1] + s[2];
  }

  lemma TotalDelay()
    ensures Sum(RETRY_DELAYS) == 876 * MINUTE
  {
    var d := RETRY_DELAYS;
    assert d == d[..4] + [d[4]];
    SumOfFour(d[..4]);
  }
}

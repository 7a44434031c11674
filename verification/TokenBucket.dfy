// The token bucket the rate limiter runs as a Redis script (internal/cache/ratelimit.go).
// Tokens are counted in sixtieths, so that a rate of r requests a minute adds exactly r a second.
module TokenBucket {
  import opened Util
  import opened Environments

  const TOKEN: int := 60

  // rate in requests a minute, ttl in seconds.
  datatype Limit = Limit(rate: int, burst: nat, ttl: nat)

  // The hash under a key: sixtieths of a token, and the second they were counted.
  datatype Bucket = Bucket(tokens: int, lastUpdate: int)

  datatype Reply = Reply(allowed: bool, retryAfter: int, remaining: int)

  predicate Limiting(l: Limit) {
    l.rate > 0
  }

  function Min(a: int, b: int): int {
    if a <= b then a else b
  }

  // Rounding up; Dafny's division by a positive number rounds down.
  function CeilDiv(a: int, b: int): (q: int)
    requires b > 0
    ensures b * q >= a && b * (q - 1) < a
  {
    (a + b - 1) / b
  }

  // One request at second now; no bucket means that the key does not exist.
  function Take(l: Limit, b: Option<Bucket>, now: int): (Bucket, Reply)
    requires Limiting(l)
  {
    var tokens := if b.Some? then b.value.tokens else l.burst * TOKEN;
    var last := if b.Some? then b.value.lastUpdate else now;
    var filled := Min(l.burst * TOKEN, tokens + (now - last) * l.rate);
    (Bucket(if filled >= TOKEN then filled - TOKEN else filled, now), Answer(filled, l.rate))
  }

  // The reply of a bucket that holds this much after the refill.
  function Answer(filled: int, rate: int): Reply
    requires rate > 0
  {
    if filled >= TOKEN then Reply(true, 0, (filled - TOKEN) / TOKEN)
    else Reply(false, CeilDiv(TOKEN - filled, rate), filled / TOKEN)
  }

  // ---- runs on a key that never expires ----

  function After(l: Limit, b: Option<Bucket>, times: seq<int>): Option<Bucket>
    requires Limiting(l)
  {
    if times == [] then b
    else Some(Take(l, After(l, b, times[..|times| - 1]), times[|times| - 1]).0)
  }

  function Replies(l: Limit, b: Option<Bucket>, times: seq<int>): (r: seq<Reply>)
    requires Limiting(l)
    ensures |r| == |times|
  {
    if times == [] then []
    else
      var init := times[..|times| - 1];
      Replies(l, b, init) + [Take(l, After(l, b, init), times[|times| - 1]).1]
  }

  function CountAllowed(replies: seq<Reply>): nat {
    if replies == [] then 0
    else CountAllowed(replies[..|replies| - 1]) + if replies[|replies| - 1].allowed then 1 else 0
  }

  // The potential tokens - rate * lastUpdate pays for every request that is let through.
  lemma {:induction false} PotentialPays(l: Limit, b: Option<Bucket>, times: seq<int>)
    requires Limiting(l) && times != []
    ensures var after := After(l, b, times).value;
            && after.lastUpdate == times[|times| - 1]
            && TOKEN * CountAllowed(Replies(l, b, times)) + after.tokens
               <= TOKEN * l.burst + l.rate * (times[|times| - 1] - times[0])
  {
    hide Take, After, Replies, CountAllowed;
    var init, last := times[..|times| - 1], times[|times| - 1];
    OneMore(l, b, times);
    TakePays(l, After(l, b, init), last);
    if init == [] {
      NoneYet(l, b);
    } else {
      PotentialPays(l, b, init);
      var before, after := After(l, b, init).value, After(l, b, times).value;
      var paid := if Take(l, Some(before), last).1.allowed then TOKEN else 0;
      Spend(l, TOKEN * CountAllowed(Replies(l, b, init)), before.tokens, before.lastUpdate, times[0], after.tokens, last, paid);
    }
  }

  lemma OneMore(l: Limit, b: Option<Bucket>, times: seq<int>)
    requires Limiting(l) && times != []
    ensures var init, last := times[..|times| - 1], times[|times| - 1];
            var (after, reply) := Take(l, After(l, b, init), last);
            && After(l, b, times) == Some(after)
            && (init != [] ==> After(l, b, init).Some?)
            && CountAllowed(Replies(l, b, times)) == CountAllowed(Replies(l, b, init)) + if reply.allowed then 1 else 0
  {
    hide Take;
    assert Replies(l, b, times)[..|times| - 1] == Replies(l, b, times[..|times| - 1]);
  }

  lemma NoneYet(l: Limit, b: Option<Bucket>)
    requires Limiting(l)
    ensures CountAllowed(Replies(l, b, [])) == 0
  {
  }

  lemma TakePays(l: Limit, b: Option<Bucket>, now: int)
    requires Limiting(l)
    ensures var (after, reply) := Take(l, b, now);
            && after.lastUpdate == now
            && after.tokens + (if reply.allowed then TOKEN else 0) <= l.burst * TOKEN
            && (b.Some? ==> after.tokens + (if reply.allowed then TOKEN else 0)
                            <= b.value.tokens + (now - b.value.lastUpdate) * l.rate)
  {
  }

  lemma Spend(l: Limit, spent: int, tokens: int, last: int, first: int, tokens': int, now: int, paid: int)
    requires spent + tokens <= TOKEN * l.burst + l.rate * (last - first)
    requires tokens' + paid <= tokens + (now - last) * l.rate
    ensures spent + paid + tokens' <= TOKEN * l.burst + l.rate * (now - first)
  {
    assert (now - last) * l.rate + l.rate * (last - first) == l.rate * (now - first);
  }

  // Over any consecutive requests on a live or fresh key, the last of them let through, the number
  // let through is at most the burst plus the rate times the time spanned, for any clock readings,
  // even ones that go backwards.
  lemma WindowBound(l: Limit, b: Option<Bucket>, times: seq<int>)
    requires Limiting(l) && times != []
    requires Replies(l, b, times)[|times| - 1].allowed
    ensures TOKEN * CountAllowed(Replies(l, b, times)) <= TOKEN * l.burst + l.rate * (times[|times| - 1] - times[0])
  {
    PotentialPays(l, b, times);
    var init := times[..|times| - 1];
    assert After(l, b, times).value == Take(l, After(l, b, init), times[|times| - 1]).0;
    assert Replies(l, b, times)[|times| - 1] == Take(l, After(l, b, init), times[|times| - 1]).1;
  }

  ghost predicate Monotone(times: seq<int>) {
    forall i, j :: 0 <= i <= j < |times| ==> times[i] <= times[j]
  }

  // With a clock that does not go back the bucket holds between nothing and the burst.
  lemma {:induction false} TokensInRange(l: Limit, times: seq<int>)
    requires Limiting(l) && Monotone(times) && times != []
    ensures var after := After(l, None, times).value;
            0 <= after.tokens <= l.burst * TOKEN && after.lastUpdate == times[|times| - 1]
  {
    var init := times[..|times| - 1];
    if init != [] {
      TokensInRange(l, init);
      var before := After(l, None, init).value;
      assert before.lastUpdate == init[|init| - 1] == times[|times| - 2];
      NonNegative(times[|times| - 1] - before.lastUpdate, l.rate);
    }
  }

  lemma NonNegative(a: int, b: int)
    requires a >= 0 && b >= 0
    ensures a * b >= 0
  {
  }

  // ---- the metadata in a reply is exact ----

  // A bucket that has just refused.
  ghost predicate Refusing(b: Bucket) {
    b.tokens < TOKEN
  }

  lemma RefilledWhen(l: Limit, b: Bucket, t: int)
    requires Limiting(l) && l.burst > 0 && Refusing(b)
    ensures Take(l, Some(b), t).1.allowed <==> t >= b.lastUpdate + CeilDiv(TOKEN - b.tokens, l.rate)
  {
    var wait := CeilDiv(TOKEN - b.tokens, l.rate);
    var elapsed := t - b.lastUpdate;
    if elapsed >= wait {
      NonNegative(elapsed - wait, l.rate);
      assert elapsed * l.rate == l.rate * wait + (elapsed - wait) * l.rate;
    } else {
      NonNegative(wait - 1 - elapsed, l.rate);
      assert elapsed * l.rate == l.rate * (wait - 1) - (wait - 1 - elapsed) * l.rate;
    }
  }

  // A refused probe leaves the moment the next token is due unchanged: refill is additive.
  lemma ProbeIsHarmless(l: Limit, b: Bucket, t: int)
    requires Limiting(l) && l.burst > 0 && Refusing(b) && !Take(l, Some(b), t).1.allowed
    ensures var (after, reply) := Take(l, Some(b), t);
            && Refusing(after) && after.lastUpdate == t
            && t + reply.retryAfter == b.lastUpdate + CeilDiv(TOKEN - b.tokens, l.rate)
  {
    var n := t - b.lastUpdate;
    CeilShift(TOKEN - b.tokens, n, l.rate);
  }

  lemma CeilShift(a: int, n: int, b: int)
    requires b > 0
    ensures CeilDiv(a - n * b, b) == CeilDiv(a, b) - n
  {
    var x, y := CeilDiv(a - n * b, b), CeilDiv(a, b) - n;
    assert b * y == b * CeilDiv(a, b) - n * b;
    assert b * (y - 1) == b * (CeilDiv(a, b) - 1) - n * b;
    SameCeil(a - n * b, b, x, y);
  }

  lemma SameCeil(a: int, b: int, x: int, y: int)
    requires b > 0 && b * x >= a && b * (x - 1) < a && b * y >= a && b * (y - 1) < a
    ensures x == y
  {
    SmallerFactor(b, y - 1, x);
    SmallerFactor(b, x - 1, y);
  }

  lemma LargerProduct(b: int, p: int, q: int)
    requires b > 0 && p >= q
    ensures b * p >= b * q
  {
    NonNegative(p - q, b);
    assert b * p == b * q + (p - q) * b;
  }

  lemma SmallerFactor(b: int, p: int, q: int)
    requires b > 0 && b * p < b * q
    ensures p < q
  {
    if p >= q {
      LargerProduct(b, p, q);
    }
  }

  // retry_after is exact. After a refusal at second now, whatever probes come before now +
  // retry_after are refused and do not delay anything; the first request after them is let
  // through if and only if it comes at now + retry_after or later.
  lemma {:induction false} RetryAfterIsExact(l: Limit, b: Option<Bucket>, now: int, probes: seq<int>, t: int)
    requires Limiting(l) && l.burst > 0 && !Take(l, b, now).1.allowed
    requires forall i :: 0 <= i < |probes| ==> probes[i] < now + Take(l, b, now).1.retryAfter
    ensures var (after, reply) := Take(l, b, now);
            && (forall i :: 0 <= i < |probes| ==> !Replies(l, Some(after), probes)[i].allowed)
            && (Take(l, After(l, Some(after), probes), t).1.allowed <==> t >= now + reply.retryAfter)
  {
    var (after, reply) := Take(l, b, now);
    StillRefusing(l, after, probes, now + reply.retryAfter);
    RefilledWhen(l, After(l, Some(after), probes).value, t);
  }

  lemma {:induction false} StillRefusing(l: Limit, b: Bucket, probes: seq<int>, due: int)
    requires Limiting(l) && l.burst > 0 && Refusing(b) && due == b.lastUpdate + CeilDiv(TOKEN - b.tokens, l.rate)
    requires forall i :: 0 <= i < |probes| ==> probes[i] < due
    ensures forall i :: 0 <= i < |probes| ==> !Replies(l, Some(b), probes)[i].allowed
    ensures var after := After(l, Some(b), probes).value;
            Refusing(after) && due == after.lastUpdate + CeilDiv(TOKEN - after.tokens, l.rate)
  {
    if probes != [] {
      var init, last := probes[..|probes| - 1], probes[|probes| - 1];
      StillRefusing(l, b, init, due);
      var before := After(l, Some(b), init).value;
      RefilledWhen(l, before, last);
      ProbeIsHarmless(l, before, last);
    }
  }

  // Under a burst of zero there is nothing to wait for.
  lemma {:induction false} EmptyBurstNeverAllows(l: Limit, times: seq<int>, i: nat)
    requires Limiting(l) && l.burst == 0 && i < |times|
    ensures !Replies(l, None, times)[i].allowed
  {
    ReplyAt(l, None, times, i);
  }

  function Times(n: nat, t: int): (r: seq<int>)
    ensures |r| == n && forall i :: 0 <= i < n ==> r[i] == t
  {
    seq(n, i => t)
  }

  lemma TakeSameSecond(l: Limit, b: Bucket)
    requires Limiting(l) && b.tokens <= l.burst * TOKEN
    ensures var (after, reply) := Take(l, Some(b), b.lastUpdate);
            && after == Bucket(if b.tokens >= TOKEN then b.tokens - TOKEN else b.tokens, b.lastUpdate)
            && (reply.allowed <==> b.tokens >= TOKEN)
  {
  }

  // n more requests within the second in which a bucket was last counted.
  lemma {:induction false} SameSecond(l: Limit, b: Bucket, n: nat)
    requires Limiting(l) && b.tokens <= l.burst * TOKEN
    ensures var after := After(l, Some(b), Times(n, b.lastUpdate)).value;
            && after.lastUpdate == b.lastUpdate && after.tokens <= l.burst * TOKEN
            && (n <= b.tokens / TOKEN ==> after.tokens == b.tokens - n * TOKEN)
            && (n >= b.tokens / TOKEN ==> after.tokens < TOKEN)
  {
    hide Take;
    if n > 0 {
      SameSecond(l, b, n - 1);
      assert Times(n, b.lastUpdate)[..n - 1] == Times(n - 1, b.lastUpdate);
      TakeSameSecond(l, After(l, Some(b), Times(n - 1, b.lastUpdate)).value);
    }
  }

  // remaining is exact: within the same second exactly that many further requests are let
  // through, the first ones, however many are made.
  lemma RemainingIsExact(l: Limit, b: Option<Bucket>, now: int, n: nat, i: nat)
    requires Limiting(l) && i < n
    ensures var (after, reply) := Take(l, b, now);
            Replies(l, Some(after), Times(n, now))[i].allowed <==> i < reply.remaining
  {
    var (after, reply) := Take(l, b, now);
    TakePays(l, b, now);
    RemainingOf(l, b, now);
    hide Take;
    SameSecond(l, after, i);
    ReplyAt(l, Some(after), Times(n, now), i);
    assert Times(n, now)[..i] == Times(i, now);
    TakeSameSecond(l, After(l, Some(after), Times(i, now)).value);
  }

  lemma RemainingOf(l: Limit, b: Option<Bucket>, now: int)
    requires Limiting(l)
    ensures Take(l, b, now).1.remaining == Take(l, b, now).0.tokens / TOKEN
  {
  }

  lemma {:induction false} ReplyAt(l: Limit, b: Option<Bucket>, times: seq<int>, i: nat)
    requires Limiting(l) && i < |times|
    ensures Replies(l, b, times)[i] == Take(l, After(l, b, times[..i]), times[i]).1
  {
    hide Take;
    if i < |times| - 1 {
      ReplyAt(l, b, times[..|times| - 1], i);
      assert times[..|times| - 1][..i] == times[..i];
    }
  }

  // ---- forgetting idle keys ----

  // A bucket with the time Redis will drop it. The clock is in milliseconds; the script is
  // passed whole seconds.
  datatype Entry = Entry(bucket: Bucket, expiresAt: int)

  function Second(clock: int): int {
    clock / 1000
  }

  function Live(e: Option<Entry>, clock: int): Option<Bucket> {
    if e.Some? && clock < e.value.expiresAt then Some(e.value.bucket) else None
  }

  function TakeEntry(l: Limit, e: Option<Entry>, clock: int): (Entry, Reply)
    requires Limiting(l)
  {
    var (b, reply) := Take(l, Live(e, clock), Second(clock));
    (Entry(b, clock + 1000 * l.ttl), reply)
  }

  function AfterClocks(l: Limit, clocks: seq<int>): Option<Entry>
    requires Limiting(l)
  {
    if clocks == [] then None
    else Some(TakeEntry(l, AfterClocks(l, clocks[..|clocks| - 1]), clocks[|clocks| - 1]).0)
  }

  function RepliesClocks(l: Limit, clocks: seq<int>): (r: seq<Reply>)
    requires Limiting(l)
    ensures |r| == |clocks|
  {
    if clocks == [] then []
    else
      var init := clocks[..|clocks| - 1];
      RepliesClocks(l, init) + [TakeEntry(l, AfterClocks(l, init), clocks[|clocks| - 1]).1]
  }

  function Seconds(clocks: seq<int>): (r: seq<int>)
    ensures |r| == |clocks|
  {
    seq(|clocks|, i requires 0 <= i < |clocks| => Second(clocks[i]))
  }

  // Refilling for the whole time to live fills the bucket.
  ghost predicate TtlCoversBurst(l: Limit) {
    l.burst * TOKEN <= l.rate * l.ttl
  }

  lemma {:induction false} ExpiryInvisible(l: Limit, clocks: seq<int>)
    requires Limiting(l) && Monotone(clocks) && TtlCoversBurst(l)
    ensures RepliesClocks(l, clocks) == Replies(l, None, Seconds(clocks))
    ensures clocks != [] ==> AfterClocks(l, clocks).value.bucket == After(l, None, Seconds(clocks)).value
                             && AfterClocks(l, clocks).value.expiresAt == clocks[|clocks| - 1] + 1000 * l.ttl
  {
    if clocks != [] {
      var init, clock := clocks[..|clocks| - 1], clocks[|clocks| - 1];
      ExpiryInvisible(l, init);
      assert Seconds(clocks)[..|init|] == Seconds(init);
      if init != [] {
        assert init[|init| - 1] == clocks[|clocks| - 2] <= clock;
        forall i, j | 0 <= i <= j < |init| ensures Seconds(init)[i] <= Seconds(init)[j] {
          assert clocks[i] <= clocks[j];
        }
        TokensInRange(l, Seconds(init));
        SameReply(l, AfterClocks(l, init).value, clock);
      }
    }
  }

  // Dropped or not, the bucket gives the same answer and ends the same.
  lemma SameReply(l: Limit, e: Entry, clock: int)
    requires Limiting(l) && TtlCoversBurst(l) && e.bucket.tokens >= 0
    requires e.bucket.lastUpdate == Second(e.expiresAt - 1000 * l.ttl)
    ensures Take(l, Live(Some(e), clock), Second(clock)) == Take(l, Some(e.bucket), Second(clock))
  {
    if clock >= e.expiresAt {
      var elapsed := Second(clock) - e.bucket.lastUpdate;
      assert elapsed >= l.ttl;
      NonNegative(elapsed - l.ttl, l.rate);
      assert elapsed * l.rate == l.rate * l.ttl + (elapsed - l.ttl) * l.rate;
    }
  }

  // Drain the bucket at once, then come back when the key is gone.
  function DrainAndReturn(l: Limit): seq<int> {
    Times(l.burst, 0) + [1000 * l.ttl]
  }

  lemma {:induction false} Drained(l: Limit, n: nat)
    requires Limiting(l) && n <= l.burst
    ensures n > 0 ==> After(l, None, Times(n, 0)) == Some(Bucket((l.burst - n) * TOKEN, 0))
  {
    if n > 0 {
      Drained(l, n - 1);
      assert Times(n, 0)[..n - 1] == Times(n - 1, 0);
    }
  }

  // A bucket that is kept is still short of a token then; one that is dropped starts full.
  lemma KeptAndDropped(l: Limit)
    requires Limiting(l) && l.burst > 0
    ensures var clocks, n := DrainAndReturn(l), l.burst;
            && Replies(l, None, Seconds(clocks))[n] == Take(l, Some(Bucket(0, 0)), l.ttl).1
            && RepliesClocks(l, clocks)[n] == Take(l, None, l.ttl).1
  {
    hide Take;
    var clocks, n := DrainAndReturn(l), l.burst;
    assert clocks[..n] == Times(n, 0);
    assert Seconds(clocks)[..n] == Times(n, 0) && Seconds(clocks)[n] == l.ttl;
    Drained(l, n);
    assert clocks[..n][..n - 1] == Times(n - 1, 0);
    assert AfterClocks(l, clocks[..n]).value.expiresAt == 1000 * l.ttl;
  }

  lemma TakeEmpty(l: Limit, now: int, refill: int)
    requires Limiting(l) && (now - 0) * l.rate == refill && 0 <= refill <= l.burst * TOKEN
    ensures Take(l, Some(Bucket(0, 0)), now).1 == Answer(refill, l.rate)
  {
    hide Answer;
  }

  lemma TakeFull(l: Limit, now: int)
    requires Limiting(l)
    ensures Take(l, None, now).1 == Answer(l.burst * TOKEN, l.rate)
  {
    hide Answer;
    assert (now - now) * l.rate == 0;
  }

  lemma EmptyIsShort(l: Limit)
    requires Limiting(l) && !TtlCoversBurst(l)
    ensures l.burst > 0 && Take(l, Some(Bucket(0, 0)), l.ttl).1 != Take(l, None, l.ttl).1
  {
    hide Answer, Take;
    NonNegative(l.rate, l.ttl);
    var refill := l.rate * l.ttl;
    assert refill < l.burst * TOKEN;
    hide TtlCoversBurst;
    assert (l.ttl - 0) * l.rate == refill;
    TakeEmpty(l, l.ttl, refill);
    TakeFull(l, l.ttl);
    Distinguishable(refill, l.burst, l.rate);
  }

  lemma Distinguishable(filled: int, burst: nat, rate: int)
    requires 0 <= filled < burst * TOKEN && rate > 0
    ensures Answer(filled, rate) != Answer(burst * TOKEN, rate)
  {
    assert (burst * TOKEN - TOKEN) / TOKEN == burst - 1;
  }

  lemma ExpiryVisible(l: Limit)
    requires Limiting(l) && !TtlCoversBurst(l)
    ensures Monotone(DrainAndReturn(l))
    ensures RepliesClocks(l, DrainAndReturn(l)) != Replies(l, None, Seconds(DrainAndReturn(l)))
  {
    hide Replies, RepliesClocks, Take, TtlCoversBurst;
    EmptyIsShort(l);
    KeptAndDropped(l);
  }

  // Forgetting a key after its time to live changes no answer in any run on a clock that does not
  // go back, if and only if a bucket refills completely within that time.
  lemma ExpiryInvisibleIff(l: Limit)
    requires Limiting(l)
    ensures TtlCoversBurst(l)
       <==> forall clocks :: Monotone(clocks) ==> RepliesClocks(l, clocks) == Replies(l, None, Seconds(clocks))
  {
    if TtlCoversBurst(l) {
      forall clocks | Monotone(clocks) ensures RepliesClocks(l, clocks) == Replies(l, None, Seconds(clocks)) {
        ExpiryInvisible(l, clocks);
      }
    } else {
      ExpiryVisible(l);
    }
  }

  const API_TTL: nat := 120
  const IP_TTL: nat := 10

  // The shipped tiers, 60 a minute with a burst of 10 and 600 with 50, and the default redirect limit, 100 a
  // second with a burst of 20, all meet the condition.
  lemma ShippedLimitsForgetSafely(clocks: seq<int>)
    requires Monotone(clocks)
    ensures forall l :: l in {Limit(60, 10, 120), Limit(600, 50, 120), Limit(6000, 20, 10)}
              ==> RepliesClocks(l, clocks) == Replies(l, None, Seconds(clocks))
  {
    ExpiryInvisible(Limit(60, 10, 120), clocks);
    ExpiryInvisible(Limit(600, 50, 120), clocks);
    ExpiryInvisible(Limit(6000, 20, 10), clocks);
  }

  // ---- the script against the store ----

  class RateLimiter {
    const env: Environment
    var keys: map<string, Entry>

    constructor (env: Environment)
      ensures keys == map[] && this.env == env
    {
      this.env, keys := env, map[];
    }

    ghost function Stored(key: string): Option<Entry> reads this {
      if key in keys then Some(keys[key]) else None
    }

    // tokenBucketScript
    method Script(key: string, l: Limit, clock: int) returns (reply: Reply)
      requires Limiting(l)
      modifies this
      ensures key in keys && (keys[key], reply) == TakeEntry(l, old(Stored(key)), clock)
      ensures keys == old(keys)[key := keys[key]]
    {
      var now := clock / 1000;
      var tokens, lastUpdate := l.burst * TOKEN, now;
      if key in keys && clock < keys[key].expiresAt {
        tokens, lastUpdate := keys[key].bucket.tokens, keys[key].bucket.lastUpdate;
      }
      var elapsed := now - lastUpdate;
      tokens := Min(l.burst * TOKEN, tokens + elapsed * l.rate);
      var allowed, retryAfter := false, 0;
      if tokens >= TOKEN {
        tokens := tokens - TOKEN;
        allowed := true;
      } else {
        retryAfter := CeilDiv(TOKEN - tokens, l.rate);
      }
      keys := keys[key := Entry(Bucket(tokens, now), clock + 1000 * l.ttl)];
      reply := Reply(allowed, retryAfter, tokens / TOKEN);
    }

    // checkRateLimit: if the script cannot be run, or its answer is lost, the request is let through.
    method CheckRateLimit(key: string, l: Limit, clock: int) returns (reply: Reply)
      requires Limiting(l)
      modifies this, env`faults
      ensures env.faults >= old(env.faults)
      ensures var (entry, answer) := TakeEntry(l, old(Stored(key)), clock);
              && (env.faults == old(env.faults) ==> reply == answer && keys == old(keys)[key := entry])
              && (env.faults > old(env.faults) ==>
                    reply == Reply(true, 0, l.burst) && (keys == old(keys) || keys == old(keys)[key := entry]))
    {
      var lost := env.Fails();
      if lost {
        return Reply(true, 0, l.burst);
      }
      reply := Script(key, l, clock);
      var unanswered := env.Fails();
      if unanswered {
        reply := Reply(true, 0, l.burst);
      }
    }

    // CheckAPIRateLimit: a rate of zero stands for no limit.
    method CheckAPIRateLimit(keyID: string, ratePerMinute: nat, burst: nat, clock: int) returns (reply: Reply)
      modifies this, env`faults
      ensures env.faults >= old(env.faults)
      ensures ratePerMinute == 0 ==> reply == Reply(true, 0, burst) && keys == old(keys)
      ensures ratePerMinute > 0
          ==> var key := "ratelimit:apikey:" + keyID;
              var (entry, answer) := TakeEntry(Limit(ratePerMinute, burst, API_TTL), old(Stored(key)), clock);
              if env.faults == old(env.faults) then reply == answer && keys == old(keys)[key := entry]
              else reply == Reply(true, 0, burst) && (keys == old(keys) || keys == old(keys)[key := entry])
    {
      if ratePerMinute == 0 {
        return Reply(true, 0, burst);
      }
      reply := CheckRateLimit("ratelimit:apikey:" + keyID, Limit(ratePerMinute, burst, API_TTL), clock);
    }

    // CheckIPRateLimit, for the hash of an address: a rate a second, and a shorter time to live.
    method CheckIPRateLimit(hashedIP: string, ratePerSecond: nat, burst: nat, clock: int) returns (reply: Reply)
      requires ratePerSecond > 0
      modifies this, env`faults
      ensures env.faults >= old(env.faults)
      ensures var key := "ratelimit:ip:" + hashedIP;
              var (entry, answer) := TakeEntry(Limit(60 * ratePerSecond, burst, 10), old(Stored(key)), clock);
              if env.faults == old(env.faults) then reply == answer && keys == old(keys)[key := entry]
              else reply == Reply(true, 0, burst) && (keys == old(keys) || keys == old(keys)[key := entry])
    {
      reply := CheckRateLimit("ratelimit:ip:" + hashedIP, Limit(60 * ratePerSecond, burst, IP_TTL), clock);
    }
  }
}

// What a limit a minute means to a caller of CheckAPIRateLimit (internal/cache/ratelimit.go), in requests,
// minutes and seconds.
module RateLimits {
  import opened Util
  import opened Environments
  import opened TokenBucket

  // ---- requests on one key, the key dropped when it is idle for too long ----

  function EntryAfter(l: Limit, e: Option<Entry>, clocks: seq<int>): Option<Entry>
    requires Limiting(l)
  {
    if clocks == [] then e
    else Some(TakeEntry(l, EntryAfter(l, e, clocks[..|clocks| - 1]), clocks[|clocks| - 1]).0)
  }

  function RepliesFrom(l: Limit, e: Option<Entry>, clocks: seq<int>): (r: seq<Reply>)
    requires Limiting(l)
    ensures |r| == |clocks|
  {
    if clocks == [] then []
    else
      var init := clocks[..|clocks| - 1];
      RepliesFrom(l, e, init) + [TakeEntry(l, EntryAfter(l, e, init), clocks[|clocks| - 1]).1]
  }

  // No two successive requests are so far apart that the key is dropped in between.
  ghost predicate Steady(clocks: seq<int>, ttl: nat) {
    forall i :: 0 < i < |clocks| ==> clocks[i] < clocks[i - 1] + 1000 * ttl
  }

  // Then the key lives on, and the answers are those of a bucket that is never dropped.
  lemma {:induction false} LivesOn(l: Limit, e: Option<Entry>, clocks: seq<int>)
    requires Limiting(l) && clocks != [] && Steady(clocks, l.ttl)
    ensures RepliesFrom(l, e, clocks) == Replies(l, Live(e, clocks[0]), Seconds(clocks))
    ensures var after := EntryAfter(l, e, clocks);
            && after.Some? && Some(after.value.bucket) == After(l, Live(e, clocks[0]), Seconds(clocks))
            && after.value.expiresAt == clocks[|clocks| - 1] + 1000 * l.ttl
  {
    hide Take;
    var init := clocks[..|clocks| - 1];
    assert Seconds(clocks)[..|init|] == Seconds(init);
    if init != [] {
      LivesOn(l, e, init);
    }
  }

  lemma {:induction false} CountIsSize(replies: seq<Reply>)
    ensures CountAllowed(replies) == |set i | 0 <= i < |replies| && replies[i].allowed|
  {
    if replies != [] {
      var n := |replies| - 1;
      var init := replies[..n];
      CountIsSize(init);
      var before := set i | 0 <= i < |init| && init[i].allowed;
      var after := set i | 0 <= i < |replies| && replies[i].allowed;
      assert after == if replies[n].allowed then before + {n} else before;
    }
  }

  // ---- an exact refill ----

  lemma {:induction false} AfterSplit(l: Limit, b: Option<Bucket>, a: seq<int>, c: seq<int>)
    requires Limiting(l)
    ensures After(l, b, a + c) == After(l, After(l, b, a), c)
  {
    hide Take;
    if c == [] {
      assert a + c == a;
    } else {
      AfterSplit(l, b, a, c[..|c| - 1]);
      assert (a + c)[..|a + c| - 1] == a + c[..|c| - 1];
    }
  }

  lemma RepliesSplit(l: Limit, b: Option<Bucket>, a: seq<int>, c: seq<int>, i: nat)
    requires Limiting(l) && i < |c|
    ensures Replies(l, b, a + c)[|a| + i] == Replies(l, After(l, b, a), c)[i]
  {
    hide Take, After;
    ReplyAt(l, b, a + c, |a| + i);
    ReplyAt(l, After(l, b, a), c, i);
    AfterSplit(l, b, a, c[..i]);
    assert (a + c)[..|a| + i] == a + c[..i];
  }

  // What a bucket holds at a moment.
  function Filled(l: Limit, b: Option<Bucket>, t: int): int
    requires Limiting(l)
  {
    if b.Some? then Min(l.burst * TOKEN, b.value.tokens + (t - b.value.lastUpdate) * l.rate) else l.burst * TOKEN
  }

  lemma TakeFilled(l: Limit, b: Option<Bucket>, t: int)
    requires Limiting(l)
    ensures var (after, reply) := Take(l, b, t);
            && (reply.allowed <==> Filled(l, b, t) >= TOKEN)
            && reply.remaining == (if reply.allowed then Filled(l, b, t) - TOKEN else Filled(l, b, t)) / TOKEN
  {
    if b.None? {
      assert (t - t) * l.rate == 0;
    }
  }

  // Of requests made at once, as many are let through as there are whole tokens.
  lemma AtOnce(l: Limit, b: Option<Bucket>, t: int, m: nat, i: nat)
    requires Limiting(l) && i < m && Filled(l, b, t) >= 0
    ensures Replies(l, b, Times(m, t))[i].allowed <==> i < Filled(l, b, t) / TOKEN
  {
    TakeFilled(l, b, t);
    var (after, reply) := Take(l, b, t);
    hide Take, Filled;
    assert Times(m, t) == [t] + Times(m - 1, t);
    OneTake(l, b, t);
    if i == 0 {
      ReplyAt(l, b, Times(m, t), 0);
      assert Times(m, t)[..0] == [];
      NoTake(l, b);
    } else {
      RepliesSplit(l, b, [t], Times(m - 1, t), i - 1);
      RemainingIsExact(l, b, t, m - 1, i - 1);
    }
  }

  lemma NoTake(l: Limit, b: Option<Bucket>)
    requires Limiting(l)
    ensures After(l, b, []) == b
  {
  }

  lemma OneTake(l: Limit, b: Option<Bucket>, t: int)
    requires Limiting(l)
    ensures After(l, b, [t]) == Some(Take(l, b, t).0)
  {
    assert [t][..0] == [];
    NoTake(l, b);
  }

  lemma {:induction false} Emptied(l: Limit, n: nat, t: int)
    requires Limiting(l) && n <= l.burst
    ensures n > 0 ==> After(l, None, Times(n, t)) == Some(Bucket((l.burst - n) * TOKEN, t))
    ensures forall i :: 0 <= i < n ==> Replies(l, None, Times(n, t))[i].allowed
  {
    if n > 0 {
      Emptied(l, n - 1, t);
      assert Times(n, t)[..n - 1] == Times(n - 1, t);
      assert (t - t) * l.rate == 0;
    }
  }

  // What a bucket emptied at one second holds n seconds later.
  lemma FilledAgain(l: Limit, t: int, n: nat)
    requires Limiting(l)
    ensures Filled(l, After(l, None, Times(l.burst, t)), t + n) == Min(l.burst * TOKEN, l.rate * n) >= 0
  {
    hide After, Take, Times;
    NonNegative(l.rate, n);
    if l.burst == 0 {
      assert Times(0, t) == [];
      NoTake(l, None);
    } else {
      Emptied(l, l.burst, t);
      assert (t + n - t) * l.rate == l.rate * n;
    }
  }

  // The whole burst at one second, then m requests n seconds later: the lesser of the burst and n seconds'
  // worth of the rate a minute.
  lemma RefilledExactly(l: Limit, t: int, n: nat, m: nat, i: nat)
    requires Limiting(l) && i < m
    ensures Replies(l, None, Times(l.burst, t) + Times(m, t + n))[l.burst + i].allowed
       <==> i < Min(l.burst, l.rate * n / 60)
  {
    hide Replies, After, Take, Times, Filled, Min;
    RepliesSplit(l, None, Times(l.burst, t), Times(m, t + n), i);
    FilledAgain(l, t, n);
    AtOnce(l, After(l, None, Times(l.burst, t)), t + n, m, i);
    NonNegative(l.rate, n);
    Sixtieths(l.burst, l.rate * n);
  }

  lemma BurstAllowed(l: Limit, t: int, n: nat, m: nat, k: nat)
    requires Limiting(l) && k < l.burst
    ensures Replies(l, None, Times(l.burst, t) + Times(m, t + n))[k].allowed
  {
    hide Take, After;
    var first, later := Times(l.burst, t), Times(m, t + n);
    Emptied(l, l.burst, t);
    ReplyAt(l, None, first + later, k);
    ReplyAt(l, None, first, k);
    assert (first + later)[..k] == first[..k];
  }

  lemma Sixtieths(burst: nat, x: int)
    requires x >= 0
    ensures Min(burst * TOKEN, x) / TOKEN == Min(burst, x / 60)
  {
    assert burst * TOKEN / TOKEN == burst;
  }

  // ---- the limiter ----

  // Requests with one key. Without faults, and as long as the key is not dropped in between, any run of them that ends
  // with one let through has let through at most the burst and the rate a minute over the time
  // it took, in whole seconds.
  method Requests(limiter: RateLimiter, keyID: string, ratePerMinute: nat, burst: nat, clocks: seq<int>) returns (replies: seq<Reply>)
    requires ratePerMinute > 0
    modifies limiter, limiter.env`faults
    ensures limiter.env.faults >= old(limiter.env.faults) && |replies| == |clocks|
    ensures limiter.env.faults == old(limiter.env.faults) ==>
              replies == RepliesFrom(Limit(ratePerMinute, burst, 120), old(limiter.Stored("ratelimit:apikey:" + keyID)), clocks)
    ensures limiter.env.faults == old(limiter.env.faults) && clocks != [] && Steady(clocks, 120) ==>
              replies[|clocks| - 1].allowed ==>
                60 * |set i | 0 <= i < |replies| && replies[i].allowed|
                <= 60 * burst + ratePerMinute * (clocks[|clocks| - 1] / 1000 - clocks[0] / 1000)
  {
    hide TakeEntry, EntryAfter;
    ghost var l := Limit(ratePerMinute, burst, API_TTL);
    var key := "ratelimit:apikey:" + keyID;
    ghost var e := limiter.Stored(key);
    replies := [];
    NothingYet(l, e);
    for i := 0 to |clocks|
      invariant |replies| == i && limiter.env.faults >= old(limiter.env.faults)
      invariant limiter.env.faults == old(limiter.env.faults) ==>
                  replies == RepliesFrom(l, e, clocks[..i]) && limiter.Stored(key) == EntryAfter(l, e, clocks[..i])
    {
      var reply := limiter.CheckAPIRateLimit(keyID, ratePerMinute, burst, clocks[i]);
      OneMoreRequest(l, e, clocks[..i], clocks[i]);
      assert clocks[..i + 1] == clocks[..i] + [clocks[i]];
      replies := replies + [reply];
    }
    assert clocks[..|clocks|] == clocks;
    if clocks != [] && Steady(clocks, 120) && limiter.env.faults == old(limiter.env.faults) && replies[|clocks| - 1].allowed {
      BoundOfRun(l, e, clocks);
    }
  }

  lemma NothingYet(l: Limit, e: Option<Entry>)
    requires Limiting(l)
    ensures RepliesFrom(l, e, []) == [] && EntryAfter(l, e, []) == e
  {
  }

  lemma OneMoreRequest(l: Limit, e: Option<Entry>, clocks: seq<int>, clock: int)
    requires Limiting(l)
    ensures var (entry, reply) := TakeEntry(l, EntryAfter(l, e, clocks), clock);
            && RepliesFrom(l, e, clocks + [clock]) == RepliesFrom(l, e, clocks) + [reply]
            && EntryAfter(l, e, clocks + [clock]) == Some(entry)
  {
    hide TakeEntry;
    assert (clocks + [clock])[..|clocks|] == clocks;
  }

  lemma BoundOfRun(l: Limit, e: Option<Entry>, clocks: seq<int>)
    requires Limiting(l) && clocks != [] && Steady(clocks, l.ttl) && RepliesFrom(l, e, clocks)[|clocks| - 1].allowed
    ensures var replies := RepliesFrom(l, e, clocks);
            60 * |set i | 0 <= i < |replies| && replies[i].allowed|
            <= 60 * l.burst + l.rate * (clocks[|clocks| - 1] / 1000 - clocks[0] / 1000)
  {
    LivesOn(l, e, clocks);
    WindowBound(l, Live(e, clocks[0]), Seconds(clocks));
    CountIsSize(RepliesFrom(l, e, clocks));
  }

  // An unused key lets the whole burst through at once, and n seconds later exactly the lesser of the burst and
  // n seconds' worth of the rate, which is a sixtieth of it each.
  method BurstThenWait(limiter: RateLimiter, keyID: string, ratePerMinute: nat, burst: nat, clock: int, n: nat, m: nat)
    returns (replies: seq<Reply>)
    requires ratePerMinute > 0 && n < 120 && limiter.Stored("ratelimit:apikey:" + keyID).None?
    modifies limiter, limiter.env`faults
    ensures |replies| == burst + m
    ensures limiter.env.faults == old(limiter.env.faults) ==>
              && (forall k :: 0 <= k < burst ==> replies[k].allowed)
              && (forall k :: burst <= k < burst + m ==> (replies[k].allowed <==> k - burst < burst && k - burst < ratePerMinute * n / 60))
  {
    hide RepliesFrom;
    var clocks := Times(burst, clock) + Times(m, clock + 1000 * n);
    replies := Requests(limiter, keyID, ratePerMinute, burst, clocks);
    BurstThenWaitReplies(Limit(ratePerMinute, burst, 120), clock, n, m);
  }

  lemma BurstThenWaitReplies(l: Limit, clock: int, n: nat, m: nat)
    requires Limiting(l) && n < l.ttl
    ensures var replies := RepliesFrom(l, None, Times(l.burst, clock) + Times(m, clock + 1000 * n));
            && |replies| == l.burst + m
            && (forall k :: 0 <= k < l.burst ==> replies[k].allowed)
            && (forall k :: l.burst <= k < l.burst + m ==> (replies[k].allowed <==> k - l.burst < l.burst && k - l.burst < l.rate * n / 60))
  {
    hide Replies, RepliesFrom, EntryAfter, After;
    var clocks := Times(l.burst, clock) + Times(m, clock + 1000 * n);
    var t := clock / 1000;
    if clocks != [] {
      LivesOn(l, None, clocks);
      assert Seconds(clocks) == Times(l.burst, t) + Times(m, t + n);
      var replies := RepliesFrom(l, None, clocks);
      forall k | 0 <= k < l.burst ensures replies[k].allowed {
        BurstAllowed(l, t, n, m, k);
      }
      forall k | l.burst <= k < l.burst + m ensures replies[k].allowed <==> k - l.burst < l.burst && k - l.burst < l.rate * n / 60 {
        RefilledExactly(l, t, n, m, k - l.burst);
        assert l.burst + (k - l.burst) == k;
      }
    }
  }
}

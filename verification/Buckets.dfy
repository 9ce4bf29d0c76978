/** Token buckets (golang.org/x/time/rate) over exact time and rate. */
module Buckets {

  datatype Limit = Unlimited | PerSecond(rate: real)

  datatype Config = Config(limit: Limit, burst: int)

  datatype Bucket = Bucket(tokens: real, last: real)

  /** A new limiter starts with a full bucket. */
  function NewBucket(c: Config): Bucket {
    Bucket(c.burst as real, 0.0)
  }

  /** The tokens at time `now`: a clock that went back is treated as standing still. */
  function Refilled(rate: real, burst: int, b: Bucket, now: real): real {
    var since := if now < b.last then 0.0 else now - b.last;
    var tokens := b.tokens + rate * since;
    if tokens > burst as real then burst as real else tokens
  }

  /** Allow takes one token if there is one; a refusal changes nothing. */
  function TryTake(c: Config, b: Bucket, now: real): (bool, Bucket) {
    if c.limit.Unlimited? then (true, b)
    else
      var left := Refilled(c.limit.rate, c.burst, b, now) - 1.0;
      if c.burst >= 1 && left >= 0.0 then (true, Bucket(left, now)) else (false, b)
  }

  class Limiter {
    const config: Config
    var bucket: Bucket

    constructor (config: Config)
      ensures this.config == config && bucket == NewBucket(config)
    {
      this.config := config;
      bucket := NewBucket(config);
    }

    method Allow(now: real) returns (ok: bool)
      modifies this
      ensures (ok, bucket) == TryTake(config, old(bucket), now)
    {
      if config.limit.Unlimited? {
        return true;
      }
      var left := Refilled(config.limit.rate, config.burst, bucket, now) - 1.0;
      ok := config.burst >= 1 && left >= 0.0;
      if ok {
        bucket := Bucket(left, now);
      }
    }
  }

  // ---- How much a bucket lets through ----

  /** The burst, and what the rate gives between two points in time. */
  function Allowance(c: Config, from: real, to: real): real
    requires c.limit.PerSecond?
  {
    c.burst as real + c.limit.rate * (to - from)
  }

  function AfterTimes(c: Config, b: Bucket, times: seq<real>): Bucket {
    if times == [] then b
    else TryTake(c, AfterTimes(c, b, times[..|times| - 1]), times[|times| - 1]).1
  }

  function CountAllowed(c: Config, b: Bucket, times: seq<real>): nat {
    if times == [] then 0
    else
      var front := times[..|times| - 1];
      CountAllowed(c, b, front) + if TryTake(c, AfterTimes(c, b, front), times[|times| - 1]).0 then 1 else 0
  }

  predicate NonDecreasing(times: seq<real>) {
    forall i, j | 0 <= i < j < |times| :: times[i] <= times[j]
  }

  lemma Grows(rate: real, a: real, b: real, c: real)
    requires rate >= 0.0 && a <= b <= c
    ensures rate * (b - a) + rate * (c - b) == rate * (c - a)
    ensures 0.0 <= rate * (b - a) && 0.0 <= rate * (c - b)
  {}

  /** One request spends at most the token it takes. */
  lemma TakeSpends(c: Config, b: Bucket, now: real)
    requires c.limit.PerSecond? && c.burst >= 0 && b.last <= now && 0.0 <= b.tokens
    ensures var (ok, next) := TryTake(c, b, now);
            && next.last <= now && 0.0 <= next.tokens
            && Refilled(c.limit.rate, c.burst, next, now) + (if ok then 1.0 else 0.0)
               <= Refilled(c.limit.rate, c.burst, b, now)
  {
    assert c.limit.rate * 0.0 == 0.0;
  }

  lemma FullAtFirst(c: Config, now: real)
    requires c.limit.PerSecond?
    ensures Refilled(c.limit.rate, c.burst, NewBucket(c), now) <= c.burst as real
  {}

  /** The tokens spent, and those that would be there now, are covered by the full bucket and
      what flowed in since the first request. */
  lemma {:induction false} SpentIsCovered(c: Config, times: seq<real>)
    requires c.limit.PerSecond? && c.limit.rate >= 0.0 && c.burst >= 0
    requires times != [] && NonDecreasing(times) && times[0] >= 0.0
    ensures var b, now := AfterTimes(c, NewBucket(c), times), times[|times| - 1];
            && b.last <= now && 0.0 <= b.tokens
            && Refilled(c.limit.rate, c.burst, b, now) + CountAllowed(c, NewBucket(c), times) as real
               <= Allowance(c, times[0], now)
  {
    hide Refilled, TryTake;
    var rate, n := c.limit.rate, |times| - 1;
    var front, now := times[..n], times[n];
    var b := AfterTimes(c, NewBucket(c), front);
    if front == [] {
      TakeSpends(c, b, now);
      FullAtFirst(c, now);
      assert rate * (now - times[0]) == 0.0;
    } else {
      SpentIsCovered(c, front);
      var before := front[n - 1];
      assert before == times[n - 1] <= now;
      RefillsAtRate(rate, c.burst, b, before, now);
      TakeSpends(c, b, now);
      Grows(rate, times[0], before, now);
      assert front[0] == times[0];
    }
  }

  lemma RefillsAtRate(rate: real, burst: int, b: Bucket, before: real, now: real)
    requires rate >= 0.0 && b.last <= before <= now
    ensures Refilled(rate, burst, b, now) <= Refilled(rate, burst, b, before) + rate * (now - before)
  {
    Grows(rate, b.last, before, now);
  }

  lemma NeverNegative(c: Config, b: Bucket, now: real)
    requires c.limit.PerSecond? && c.limit.rate >= 0.0 && c.burst >= 0 && b.last <= now && 0.0 <= b.tokens
    ensures Refilled(c.limit.rate, c.burst, b, now) >= 0.0
  {
    Grows(c.limit.rate, b.last, now, now);
  }

  /** In any stretch of time from the first request on, a limiter lets through at most its burst
      and what its rate gives for that stretch. */
  lemma BurstAndRate(c: Config, times: seq<real>)
    requires c.limit.PerSecond? && c.limit.rate >= 0.0 && c.burst >= 0
    requires times != [] && NonDecreasing(times) && times[0] >= 0.0
    ensures CountAllowed(c, NewBucket(c), times) as real
            <= Allowance(c, times[0], times[|times| - 1])
  {
    hide Refilled, AfterTimes, CountAllowed, NonDecreasing, Allowance;
    SpentIsCovered(c, times);
    NeverNegative(c, AfterTimes(c, NewBucket(c), times), times[|times| - 1]);
  }

  // ---- How much it has to let through ----

  lemma NoLess(rate: real, burst: int, b: Bucket, now: real)
    requires rate >= 0.0
    ensures Refilled(rate, burst, b, now) >= (if b.tokens <= burst as real then b.tokens else burst as real)
  {
    if now >= b.last {
      Grows(rate, b.last, now, now);
    } else {
      assert rate * 0.0 == 0.0;
    }
  }

  /** As many requests as the burst allows are let through from the start, at whatever times. */
  lemma {:induction false} BurstPasses(c: Config, times: seq<real>)
    requires c.limit.PerSecond? && c.limit.rate >= 0.0 && |times| <= c.burst
    ensures CountAllowed(c, NewBucket(c), times) == |times|
    ensures var left := AfterTimes(c, NewBucket(c), times).tokens;
            (c.burst - |times|) as real <= left <= c.burst as real
  {
    if times != [] {
      var n := |times| - 1;
      BurstPasses(c, times[..n]);
      NoLess(c.limit.rate, c.burst, AfterTimes(c, NewBucket(c), times[..n]), times[n]);
    }
  }

  /** After a rest in which the rate gives one token, a request is let through. */
  lemma RestedPasses(c: Config, b: Bucket, now: real)
    requires c.limit.PerSecond? && c.burst >= 1 && 0.0 <= b.tokens
    requires b.last <= now && c.limit.rate * (now - b.last) >= 1.0
    ensures TryTake(c, b, now).0
  {
    var since := now - b.last;
    assert Refilled(c.limit.rate, c.burst, b, now) >= 1.0 by {
      assert b.tokens + c.limit.rate * since >= 1.0;
    }
  }

  /** After a rest in which the rate gives k tokens, k requests are let through, if the burst
      allows as many. */
  lemma {:induction false} RestGivesBack(c: Config, b: Bucket, rest: real, k: nat, times: seq<real>)
    requires c.limit.PerSecond? && c.limit.rate >= 0.0 && 0.0 <= b.tokens && rest >= 0.0
    requires c.limit.rate * rest >= k as real && k <= c.burst
    requires |times| <= k && NonDecreasing(times) && forall i | 0 <= i < |times| :: times[i] >= b.last + rest
    ensures CountAllowed(c, b, times) == |times|
    ensures var after := AfterTimes(c, b, times);
            if times == [] then after == b
            else after.last == times[|times| - 1] && after.tokens >= (k - |times|) as real
  {
    hide Refilled;
    if times != [] {
      var n := |times| - 1;
      var front, now := times[..n], times[n];
      RestGivesBack(c, b, rest, k, front);
      var before := AfterTimes(c, b, front);
      if n == 0 {
        RestRefills(c, b, rest, k, now);
      } else {
        assert before.last == front[n - 1] == times[n - 1] <= now;
        NoLess(c.limit.rate, c.burst, before, now);
      }
    }
  }

  lemma RestRefills(c: Config, b: Bucket, rest: real, k: nat, now: real)
    requires c.limit.PerSecond? && c.limit.rate >= 0.0 && 0.0 <= b.tokens && 0.0 <= rest
    requires c.limit.rate * rest >= k as real && k <= c.burst && now >= b.last + rest
    ensures Refilled(c.limit.rate, c.burst, b, now) >= k as real
  {
    Grows(c.limit.rate, 0.0, rest, now - b.last);
  }

  // ---- Exactly when a request is let through ----

  /** How far a clock goes forward over some readings; going back does not count. */
  function Forward(times: seq<real>): real {
    if |times| <= 1 then 0.0
    else
      var n := |times| - 1;
      Forward(times[..n]) + if times[n] > times[n - 1] then times[n] - times[n - 1] else 0.0
  }

  /** The times of the requests that were let through. */
  function Passed(c: Config, times: seq<real>): seq<real> {
    if times == [] then []
    else
      var front, now := times[..|times| - 1], times[|times| - 1];
      Passed(c, front) + if TryTake(c, AfterTimes(c, NewBucket(c), front), now).0 then [now] else []
  }

  /** One more request, at time `now`, would not be too many since the i-th one let through: they
      are covered by the burst and what the rate has given since. With no such request the burst
      alone counts. */
  predicate Covered(c: Config, passed: seq<real>, now: real, i: nat)
    requires c.limit.PerSecond? && i <= |passed|
  {
    (|passed| - i + 1) as real <= c.burst as real + c.limit.rate * Forward(passed[i..] + [now])
  }

  /** What is left for a request at time `now`, counted from the i-th one let through. */
  function LeftSince(c: Config, passed: seq<real>, now: real, i: nat): real
    requires c.limit.PerSecond? && i <= |passed|
  {
    c.burst as real + c.limit.rate * Forward(passed[i..] + [now]) - (|passed| - i) as real
  }

  predicate IsLeast(c: Config, passed: seq<real>, now: real, tokens: real)
    requires c.limit.PerSecond?
  {
    && (forall i | 0 <= i <= |passed| :: tokens <= LeftSince(c, passed, now, i))
    && (exists i | 0 <= i <= |passed| :: tokens == LeftSince(c, passed, now, i))
  }

  lemma ForwardSnoc(times: seq<real>, before: real, now: real)
    ensures Forward(times + [before] + [now]) == Forward(times + [before]) + if now > before then now - before else 0.0
    ensures Forward([now]) == 0.0
  {
    assert (times + [before] + [now])[..|times| + 1] == times + [before];
  }

  lemma LeftSnoc(c: Config, passed: seq<real>, before: real, now: real, i: nat)
    requires c.limit.PerSecond? && i <= |passed|
    ensures LeftSince(c, passed + [before], now, i)
            == LeftSince(c, passed, before, i) - 1.0 + c.limit.rate * (if now > before then now - before else 0.0)
    ensures LeftSince(c, passed, now, |passed|) == c.burst as real
  {
    hide Forward;
    var d := if now > before then now - before else 0.0;
    assert (passed + [before])[i..] == passed[i..] + [before];
    ForwardSnoc(passed[i..], before, now);
    assert c.limit.rate * (Forward(passed[i..] + [before]) + d)
        == c.limit.rate * Forward(passed[i..] + [before]) + c.limit.rate * d;
    assert passed[|passed|..] + [now] == [now];
    assert c.limit.rate * 0.0 == 0.0;
  }

  /** The tokens after a request was let through, with those the time until `now` brings. */
  lemma LeastSnoc(c: Config, passed: seq<real>, before: real, now: real, tokens: real)
    requires c.limit.PerSecond? && IsLeast(c, passed, before, tokens)
    ensures var more := tokens - 1.0 + c.limit.rate * (if now > before then now - before else 0.0);
            IsLeast(c, passed + [before], now, if more > c.burst as real then c.burst as real else more)
  {
    hide LeftSince;
    var d := c.limit.rate * (if now > before then now - before else 0.0);
    var all, more := passed + [before], tokens - 1.0 + d;
    var least := if more > c.burst as real then c.burst as real else more;
    LeftSnoc(c, all, before, now, |all|);
    forall i | 0 <= i <= |all|
      ensures least <= LeftSince(c, all, now, i)
    {
      if i <= |passed| {
        LeftSnoc(c, passed, before, now, i);
      }
    }
    var i :| 0 <= i <= |passed| && tokens == LeftSince(c, passed, before, i);
    LeftSnoc(c, passed, before, now, i);
    var at := if more > c.burst as real then |all| else i;
    assert least == LeftSince(c, all, now, at);
  }

  /** The bucket after a run: full and new, or what the last request let through left. */
  lemma {:induction false} TokensAreLeast(c: Config, times: seq<real>, now: real)
    requires c.limit.PerSecond? && c.limit.rate >= 0.0
    ensures IsLeast(c, Passed(c, times), now, Refilled(c.limit.rate, c.burst, AfterTimes(c, NewBucket(c), times), now))
    decreases |times|
  {
    hide IsLeast, LeftSince, Refilled;
    if times == [] {
      FirstIsFull(c, now);
    } else {
      var front, last := times[..|times| - 1], times[|times| - 1];
      TokensAreLeast(c, front, last);
      TokensAreLeast(c, front, now);
      var b, passed := AfterTimes(c, NewBucket(c), front), Passed(c, front);
      LeastSnoc(c, passed, last, now, Refilled(c.limit.rate, c.burst, b, last));
      if TryTake(c, b, last).0 {
        assert Passed(c, times) == passed + [last];
        assert AfterTimes(c, NewBucket(c), times) == Bucket(Refilled(c.limit.rate, c.burst, b, last) - 1.0, last);
        TakenRefills(c, b, last, now);
      } else {
        assert Passed(c, times) == passed + [] == passed;
        assert AfterTimes(c, NewBucket(c), times) == b;
      }
    }
  }

  lemma TakenRefills(c: Config, b: Bucket, before: real, now: real)
    requires c.limit.PerSecond?
    ensures var more := Refilled(c.limit.rate, c.burst, b, before) - 1.0
                        + c.limit.rate * (if now > before then now - before else 0.0);
            Refilled(c.limit.rate, c.burst, Bucket(Refilled(c.limit.rate, c.burst, b, before) - 1.0, before), now)
            == if more > c.burst as real then c.burst as real else more
  {
    assert c.limit.rate * 0.0 == 0.0;
  }

  lemma FirstIsFull(c: Config, now: real)
    requires c.limit.PerSecond? && c.limit.rate >= 0.0
    ensures IsLeast(c, [], now, Refilled(c.limit.rate, c.burst, NewBucket(c), now))
  {
    LeftSnoc(c, [], now, now, 0);
    assert LeftSince(c, [], now, 0) == c.burst as real;
    NoLess(c.limit.rate, c.burst, NewBucket(c), now);
    FullAtFirst(c, now);
  }

  /** A request is let through if and only if, counted from every request let through before it,
      one more is covered by the burst and what the rate has given since. It holds for any clock. */
  lemma AllowedExactly(c: Config, times: seq<real>, now: real)
    requires c.limit.PerSecond? && c.limit.rate >= 0.0
    ensures var passed := Passed(c, times);
            TryTake(c, AfterTimes(c, NewBucket(c), times), now).0
            <==> forall i | 0 <= i <= |passed| :: Covered(c, passed, now, i)
  {
    hide Forward, AfterTimes, Refilled;
    TokensAreLeast(c, times, now);
    var passed, tokens := Passed(c, times), Refilled(c.limit.rate, c.burst, AfterTimes(c, NewBucket(c), times), now);
    assert forall i | 0 <= i <= |passed| :: Covered(c, passed, now, i) <==> LeftSince(c, passed, now, i) >= 1.0;
    assert passed[|passed|..] + [now] == [now];
    LeftSnoc(c, passed, now, now, |passed|);
    assert tokens <= LeftSince(c, passed, now, |passed|);
  }

  lemma {:induction false} ForwardSteady(times: seq<real>)
    requires times != [] && NonDecreasing(times)
    ensures Forward(times) == times[|times| - 1] - times[0]
  {
    if |times| > 1 {
      ForwardSteady(times[..|times| - 1]);
    }
  }

  lemma {:induction false} PassedSteady(c: Config, times: seq<real>)
    requires NonDecreasing(times)
    ensures NonDecreasing(Passed(c, times))
    ensures forall i | 0 <= i < |Passed(c, times)| :: times != [] && Passed(c, times)[i] <= times[|times| - 1]
    ensures |Passed(c, times)| == CountAllowed(c, NewBucket(c), times)
  {
    hide TryTake, AfterTimes;
    if times != [] {
      PassedSteady(c, times[..|times| - 1]);
    }
  }

  /** With a clock that does not go back, a request is refused only if there is no burst, or since
      some earlier request that was let through one more would be too many. */
  lemma RefusedExactly(c: Config, times: seq<real>, now: real)
    requires c.limit.PerSecond? && c.limit.rate >= 0.0 && NonDecreasing(times + [now])
    ensures var passed := Passed(c, times);
            && |passed| == CountAllowed(c, NewBucket(c), times)
            && (!TryTake(c, AfterTimes(c, NewBucket(c), times), now).0
                <==> c.burst < 1
                     || exists i | 0 <= i < |passed| :: (|passed| - i + 1) as real > Allowance(c, passed[i], now))
  {
    hide TryTake, AfterTimes, Forward;
    var passed := Passed(c, times);
    AllowedExactly(c, times, now);
    assert NonDecreasing(times) by {
      assert forall i | 0 <= i < |times| :: (times + [now])[i] == times[i];
    }
    PassedSteady(c, times);
    assert times != [] ==> (times + [now])[|times| - 1] <= (times + [now])[|times|];
    forall i | 0 <= i <= |passed|
      ensures Covered(c, passed, now, i) <==>
              if i == |passed| then c.burst >= 1 else (|passed| - i + 1) as real <= Allowance(c, passed[i], now)
    {
      CoveredSteady(c, passed, now, i);
    }
    hide Covered, Allowance;
    assert Covered(c, passed, now, |passed|) <==> c.burst >= 1;
    if exists i | 0 <= i < |passed| :: (|passed| - i + 1) as real > Allowance(c, passed[i], now) {
      var i :| 0 <= i < |passed| && (|passed| - i + 1) as real > Allowance(c, passed[i], now);
      assert !Covered(c, passed, now, i);
    }
  }

  lemma CoveredSteady(c: Config, passed: seq<real>, now: real, i: nat)
    requires c.limit.PerSecond? && NonDecreasing(passed) && i <= |passed|
    requires forall j | 0 <= j < |passed| :: passed[j] <= now
    ensures Covered(c, passed, now, i) <==>
            if i == |passed| then c.burst >= 1 else (|passed| - i + 1) as real <= Allowance(c, passed[i], now)
  {
    hide Forward;
    var since := passed[i..] + [now];
    assert NonDecreasing(since);
    ForwardSteady(since);
    if i == |passed| {
      assert since == [now];
      assert c.limit.rate * 0.0 == 0.0;
    } else {
      assert since[0] == passed[i] && since[|since| - 1] == now;
    }
  }

  /** Without a limit everything is let through. */
  lemma UnlimitedPasses(c: Config, times: seq<real>)
    requires c.limit.Unlimited?
    ensures Passed(c, times) == times
  {
    if times != [] {
      UnlimitedPasses(c, times[..|times| - 1]);
    }
  }
}

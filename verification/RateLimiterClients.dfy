/**
 What a client can rely on: other clients and its own refused requests leave no
 trace, and the wait it is quoted is exact.
 */
module RateLimiterClients {
  import opened Numbers
  import opened Options
  import opened RateLimiting
  import opened RateLimiterRuns

  /** The items whose flag is set. */
  function Kept<T>(items: seq<T>, keep: seq<bool>): seq<T>
    requires |keep| == |items|
  {
    if items == [] then []
    else
      var n := |items| - 1;
      var before := Kept(items[..n], keep[..n]);
      if keep[n] then before + [items[n]] else before
  }

  /** Flags the requests of `key`. */
  function Mine(reqs: seq<Request>, key: string): (mine: seq<bool>) {
    seq(|reqs|, i requires 0 <= i < |reqs| => reqs[i].key == key)
  }

  lemma {:induction false} AnswersPrefix(l: Limits, reqs: seq<Request>, r: Request)
    ensures Answers(l, reqs + [r]) == Answers(l, reqs) + [Answer(l, reqs, r)]
    ensures BucketsAfter(l, reqs + [r]) == Charge(l, BucketsAfter(l, reqs), r)
  {
    assert (reqs + [r])[..|reqs|] == reqs;
  }

  /** An unknown client is as good as one whose bucket was full at any earlier time. */
  lemma UnseenIsFullSinceEver(l: Limits, buckets: Buckets, key: string, since: real, now: real)
    requires l.rps >= 0.0 && since <= now && key !in buckets
    ensures Level(l, buckets, key, now) == Level(l, buckets[key := Bucket(l.burst, since)], key, now) == l.burst
  {
    UnseenIsFull(l, buckets, key, now);
    EarnedSplits(l, since, since, now);
  }

  ghost predicate SameBucket(a: Buckets, b: Buckets, key: string) {
    (key in a <==> key in b) && (key in a ==> a[key] == b[key])
  }

  lemma SameBucketSameAnswer(l: Limits, a: Buckets, b: Buckets, r: Request)
    requires SameBucket(a, b, r.key)
    ensures DecisionOn(l, a, r) == DecisionOn(l, b, r)
    ensures SameBucket(Charge(l, a, r), Charge(l, b, r), r.key)
  {
    hide Earned;
  }

  lemma ChargeTouchesOne(l: Limits, buckets: Buckets, r: Request, key: string)
    requires key != r.key
    ensures SameBucket(Charge(l, buckets, r), buckets, key)
  {
    hide Earned;
  }

  /** Each client sees the answers its own requests would get alone, and keeps the same bucket. */
  lemma {:induction false} ClientsAreIsolated(l: Limits, reqs: seq<Request>, key: string)
    ensures Answers(l, Kept(reqs, Mine(reqs, key))) == Kept(Answers(l, reqs), Mine(reqs, key))
    ensures SameBucket(BucketsAfter(l, reqs), BucketsAfter(l, Kept(reqs, Mine(reqs, key))), key)
  {
    hide Earned;
    if reqs != [] {
      var n := |reqs| - 1;
      var (before, r) := (reqs[..n], reqs[n]);
      ClientsAreIsolated(l, before, key);
      assert Mine(reqs, key)[..n] == Mine(before, key);
      assert Answers(l, reqs)[..n] == Answers(l, before);
      var alone := Kept(before, Mine(before, key));
      if r.key == key {
        SameBucketSameAnswer(l, BucketsAfter(l, before), BucketsAfter(l, alone), r);
        AnswersPrefix(l, alone, r);
      } else {
        ChargeTouchesOne(l, BucketsAfter(l, before), r, key);
      }
    }
  }

  lemma {:induction false} KeptStaysOrdered(reqs: seq<Request>, keep: seq<bool>)
    requires |keep| == |reqs| && Ordered(reqs)
    ensures Ordered(Kept(reqs, keep))
    ensures forall r | r in Kept(reqs, keep) :: r in reqs
  {
    if reqs != [] {
      var n := |reqs| - 1;
      KeptStaysOrdered(reqs[..n], keep[..n]);
      assert reqs == reqs[..n] + [reqs[n]];
      BeforeLast(reqs[..n], reqs[n]);
    }
  }

  /** The answer depends on the client's admissions alone. */
  lemma AnswerFromGrants(l: Limits, reqs: seq<Request>, r: Request)
    requires l.rps >= 0.0 && Ordered(reqs) && forall q | q in reqs :: q.at <= r.at
    ensures var grants := GrantsOf(l, reqs, r.key);
            Answer(l, reqs, r) == Decide(l, Available(l, grants, |grants|, r.at), r.tokens)
  {
    hide Earned;
    BucketMirrorsGrants(l, reqs, r.key, r.at);
  }

  /** Runs that granted a client the same give it the same answer, charge for charge. */
  lemma SameGrantsSameAnswer(l: Limits, a: seq<Request>, b: seq<Request>, r: Request)
    requires l.rps >= 0.0 && Ordered(a) && Ordered(b)
    requires (forall q | q in a :: q.at <= r.at) && (forall q | q in b :: q.at <= r.at)
    requires GrantsOf(l, a, r.key) == GrantsOf(l, b, r.key)
    ensures Answer(l, a, r) == Answer(l, b, r)
  {
    AnswerFromGrants(l, a, r);
    AnswerFromGrants(l, b, r);
  }

  lemma GrantsAppend(l: Limits, reqs: seq<Request>, r: Request, key: string)
    ensures GrantsOf(l, reqs + [r], key)
         == if r.key == key && Answer(l, reqs, r).allowed then GrantsOf(l, reqs, key) + [Grant(r.tokens, r.at)]
            else GrantsOf(l, reqs, key)
  {
    hide Answer;
    assert (reqs + [r])[..|reqs|] == reqs;
  }

  /** Every request that `keep` drops was refused. */
  ghost predicate DropsOnlyRefused(l: Limits, reqs: seq<Request>, keep: seq<bool>)
    requires |keep| == |reqs|
  {
    reqs != [] ==>
      var n := |reqs| - 1;
      DropsOnlyRefused(l, reqs[..n], keep[..n]) && (keep[n] || !Answer(l, reqs[..n], reqs[n]).allowed)
  }

  lemma {:induction false} RefusalsLeaveNoGrant(l: Limits, reqs: seq<Request>, keep: seq<bool>, key: string)
    requires l.rps >= 0.0 && Ordered(reqs) && |keep| == |reqs| && DropsOnlyRefused(l, reqs, keep)
    ensures GrantsOf(l, Kept(reqs, keep), key) == GrantsOf(l, reqs, key)
  {
    if reqs != [] {
      var n := |reqs| - 1;
      var (before, r, kept) := (reqs[..n], reqs[n], Kept(reqs[..n], keep[..n]));
      assert reqs == before + [r];
      BeforeLast(before, r);
      KeptStaysOrdered(before, keep[..n]);
      hide Answer, Ordered;
      RefusalsLeaveNoGrant(l, before, keep[..n], key);
      RefusalsLeaveNoGrant(l, before, keep[..n], r.key);
      SameGrantsSameAnswer(l, before, kept, r);
      GrantsAppend(l, kept, r, key);
    }
  }

  /**
   Dropping any refused requests changes no other answer, retry time included,
   though each refusal rewrote its bucket.
   */
  lemma {:induction false} RejectionsAreFree(l: Limits, reqs: seq<Request>, keep: seq<bool>)
    requires l.rps >= 0.0 && Ordered(reqs) && |keep| == |reqs| && DropsOnlyRefused(l, reqs, keep)
    ensures Answers(l, Kept(reqs, keep)) == Kept(Answers(l, reqs), keep)
  {
    if reqs != [] {
      var n := |reqs| - 1;
      var (before, r, kept) := (reqs[..n], reqs[n], Kept(reqs[..n], keep[..n]));
      assert reqs == before + [r];
      BeforeLast(before, r);
      KeptStaysOrdered(before, keep[..n]);
      hide Answer, Ordered, GrantsOf;
      RejectionsAreFree(l, before, keep[..n]);
      RefusalsLeaveNoGrant(l, before, keep[..n], r.key);
      SameGrantsSameAnswer(l, before, kept, r);
      AnswersPrefix(l, kept, r);
      assert Answers(l, reqs)[..n] == Answers(l, before);
    }
  }

  // ----- The quoted wait -----

  lemma RefillTime(level: real, tokens: real, rate: real, dt: real)
    requires rate > 0.0
    ensures level + dt * rate >= tokens <==> dt >= (tokens - level) / rate
  {
    var wait := (tokens - level) / rate;
    assert wait * rate == tokens - level;
    assert (dt - wait) * rate == dt * rate - wait * rate;
  }

  lemma RetryOnLevel(l: Limits, level: real, tokens: real, dt: real)
    requires l.rps > 0.0 && level < tokens
    ensures Decide(l, level, tokens).retryAfter.Seconds?
    ensures Decide(l, Min(l.burst, level + Earned(l, dt)), tokens).allowed
       <==> tokens <= l.burst && dt >= Decide(l, level, tokens).retryAfter.s
  {
    RefillTime(level, tokens, l.rps, dt);
  }

  lemma OrderAround(reqs: seq<Request>, r: Request, later: seq<Request>, retry: Request)
    requires Ordered(reqs + [r] + later + [retry])
    ensures Ordered(reqs) && forall q | q in reqs :: q.at <= r.at
    ensures Ordered(reqs + [r] + later) && forall q | q in reqs + [r] + later :: q.at <= retry.at
    ensures r.at <= retry.at
  {
    var all := reqs + [r] + later;
    BeforeLast(all, retry);
    assert all[..|reqs| + 1] == reqs + [r];
    assert Ordered(all[..|reqs| + 1]);
    BeforeLast(reqs, r);
    assert all[|reqs|] == r;
  }

  /** The level a refused request met, and what it has become at the retry. */
  lemma LevelAround(l: Limits, reqs: seq<Request>, r: Request, later: seq<Request>, at: real)
    returns (level: real)
    requires l.rps >= 0.0 && Ordered(reqs + [r] + later + [r.(at := at)])
    requires GrantsOf(l, reqs + [r] + later, r.key) == GrantsOf(l, reqs, r.key)
    ensures Answer(l, reqs, r) == Decide(l, level, r.tokens)
    ensures Answer(l, reqs + [r] + later, r.(at := at))
         == Decide(l, Min(l.burst, level + Earned(l, at - r.at)), r.tokens)
  {
    hide Earned;
    var all := reqs + [r] + later;
    var grants := GrantsOf(l, reqs, r.key);
    level := Available(l, grants, |grants|, r.at);
    OrderAround(reqs, r, later, r.(at := at));
    AnswerFromGrants(l, reqs, r);
    AnswerFromGrants(l, all, r.(at := at));
    AvailableAdvances(l, grants, |grants|, r.at, at);
  }

  /**
   After a refusal quoted `wait`, and until the client is next admitted, a retry is
   allowed exactly when it comes `wait` later, provided a full bucket could pay for it.
   */
  lemma ExactRetry(l: Limits, reqs: seq<Request>, r: Request, later: seq<Request>, at: real)
    requires l.rps > 0.0 && Ordered(reqs + [r] + later + [r.(at := at)])
    requires !Answer(l, reqs, r).allowed
    requires GrantsOf(l, reqs + [r] + later, r.key) == GrantsOf(l, reqs, r.key)
    ensures Answer(l, reqs, r).retryAfter.Seconds?
    ensures Answer(l, reqs + [r] + later, r.(at := at)).allowed
       <==> r.tokens <= l.burst && at >= r.at + Answer(l, reqs, r).retryAfter.s
  {
    hide Earned;
    var level := LevelAround(l, reqs, r, later, at);
    RetryOnLevel(l, level, r.tokens, at - r.at);
  }

  /**
   The Retry-After header is defined for every refused request exactly when the bucket
   refills; waiting it out suffices and overshoots by less than a second.
   */
  lemma RetryHeaderSuffices(l: Limits, reqs: seq<Request>, r: Request, later: seq<Request>, at: real)
    requires Ordered(reqs + [r] + later + [r.(at := at)])
    requires !Answer(l, reqs, r).allowed
    requires GrantsOf(l, reqs + [r] + later, r.key) == GrantsOf(l, reqs, r.key)
    ensures RetryHeader(Answer(l, reqs, r).retryAfter).Some? <==> l.rps > 0.0
    ensures l.rps > 0.0 ==>
              var wait := Answer(l, reqs, r).retryAfter;
              var header := RetryHeader(wait).value;
              && wait.Seconds? && header >= 1 && wait.s <= header as real < wait.s + 1.0
              && (at >= r.at + header as real && r.tokens <= l.burst ==>
                    Answer(l, reqs + [r] + later, r.(at := at)).allowed)
  {
    hide Earned;
    var wait := Answer(l, reqs, r).retryAfter;
    if l.rps > 0.0 {
      ExactRetry(l, reqs, r, later, at);
      CeilBounds(wait.s);
      assert wait.s > 0.0;
    }
  }

  /** Every answer reports the tokens left, an admission no wait, and a refusal how long its tokens take to earn. */
  lemma {:induction false} AnswersReportLevel(l: Limits, reqs: seq<Request>, r: Request)
    requires l.rps > 0.0 && Ordered(reqs + [r])
    ensures var grants := GrantsOf(l, reqs, r.key);
            var level := Available(l, grants, |grants|, r.at);
            var answer := Answer(l, reqs, r);
            if answer.allowed then answer.remaining == level - r.tokens >= 0.0 && answer.retryAfter == Seconds(0.0)
            else answer.remaining == level < r.tokens && answer.retryAfter == Seconds((r.tokens - level) / l.rps)
  {
    BeforeLast(reqs, r);
    hide Ordered, Answer, Available, GrantsOf;
    AnswerFromGrants(l, reqs, r);
  }
}

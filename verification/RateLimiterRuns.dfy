/**
 Whole runs of the rate limiter. What a bucket holds is determined by the
 admissions granted to its client alone; everything else follows from that.
 */
module RateLimiterRuns {
  import opened Options
  import opened RateLimiting

  ghost predicate Ordered(reqs: seq<Request>) {
    forall i, j | 0 <= i < j < |reqs| :: reqs[i].at <= reqs[j].at
  }

  function BucketsAfter(l: Limits, reqs: seq<Request>): Buckets {
    if reqs == [] then map[]
    else
      var n := |reqs| - 1;
      Charge(l, BucketsAfter(l, reqs[..n]), reqs[n])
  }

  /** The answer to `r` after the run `reqs`. */
  function Answer(l: Limits, reqs: seq<Request>, r: Request): Decision {
    DecisionOn(l, BucketsAfter(l, reqs), r)
  }

  function Answers(l: Limits, reqs: seq<Request>): (answers: seq<Decision>)
    ensures |answers| == |reqs|
  {
    if reqs == [] then []
    else
      var n := |reqs| - 1;
      Answers(l, reqs[..n]) + [Answer(l, reqs[..n], reqs[n])]
  }

  // ----- The specification: windows over the admissions of one client -----

  datatype Grant = Grant(tokens: real, at: real)

  /** The admissions of `key`, oldest first. */
  ghost function GrantsOf(l: Limits, reqs: seq<Request>, key: string): seq<Grant> {
    if reqs == [] then []
    else
      var n := |reqs| - 1;
      var before := GrantsOf(l, reqs[..n], key);
      if reqs[n].key == key && Answer(l, reqs[..n], reqs[n]).allowed
      then before + [Grant(reqs[n].tokens, reqs[n].at)] else before
  }

  /** The tokens granted from the i-th admission up to, not including, the j-th. */
  ghost function Granted(grants: seq<Grant>, i: nat, j: nat): real
    requires i <= j <= |grants|
  {
    if i == j then 0.0 else Granted(grants, i, j - 1) + grants[j - 1].tokens
  }

  /** What the window from the i-th admission to `t`, holding those before the n-th, still takes. */
  ghost function Slack(l: Limits, grants: seq<Grant>, i: nat, n: nat, t: real): real
    requires i < n <= |grants|
  {
    l.burst + Earned(l, t - grants[i].at) - Granted(grants, i, n)
  }

  /** Adding `tokens` at `t` to the first n admissions overfills no window that ends there. */
  ghost predicate FitsEveryWindow(l: Limits, grants: seq<Grant>, n: nat, tokens: real, t: real)
    requires n <= |grants|
  {
    && tokens <= l.burst
    && forall i | 0 <= i < n :: tokens <= Slack(l, grants, i, n, t)
  }

  /** A sequence of admissions none of whose windows was overfilled. */
  ghost predicate Conforms(l: Limits, grants: seq<Grant>) {
    forall n | 0 <= n < |grants| :: FitsEveryWindow(l, grants, n, grants[n].tokens, grants[n].at)
  }

  // ----- The bucket as a function of the admissions -----

  /** What the first n admissions leave at `t`. */
  ghost function Available(l: Limits, grants: seq<Grant>, n: nat, t: real): real
    requires n <= |grants|
  {
    if n == 0 then l.burst
    else
      var last := grants[n - 1];
      Min(l.burst, Available(l, grants, n - 1, last.at) - last.tokens + Earned(l, t - last.at))
  }

  lemma EarnedSplits(l: Limits, t0: real, t1: real, t2: real)
    ensures Earned(l, t2 - t0) == Earned(l, t1 - t0) + Earned(l, t2 - t1)
    ensures l.rps >= 0.0 && t1 <= t2 ==> Earned(l, t2 - t1) >= 0.0
    ensures t1 == t2 ==> Earned(l, t2 - t1) == 0.0
  {
  }

  /** Refilling in two capped steps is refilling in one. */
  lemma RefillComposes(l: Limits, level: real, t0: real, t1: real, t2: real)
    requires l.rps >= 0.0 && t1 <= t2
    ensures Min(l.burst, Min(l.burst, level + Earned(l, t1 - t0)) + Earned(l, t2 - t1))
         == Min(l.burst, level + Earned(l, t2 - t0))
  {
    hide Earned;
    EarnedSplits(l, t0, t1, t2);
  }

  lemma AvailableAdvances(l: Limits, grants: seq<Grant>, n: nat, t1: real, t2: real)
    requires l.rps >= 0.0 && t1 <= t2 && n <= |grants|
    ensures Available(l, grants, n, t2) == Min(l.burst, Available(l, grants, n, t1) + Earned(l, t2 - t1))
  {
    hide Earned;
    if n == 0 {
      EarnedSplits(l, t1, t1, t2);
    } else {
      var last := grants[n - 1];
      RefillComposes(l, Available(l, grants, n - 1, last.at) - last.tokens, last.at, t1, t2);
    }
  }

  lemma {:induction false} LaterGrantsDoNotMatter(l: Limits, grants: seq<Grant>, g: Grant, n: nat, t: real)
    requires n <= |grants|
    ensures Available(l, grants + [g], n, t) == Available(l, grants, n, t)
  {
    hide Earned;
    if n > 0 {
      LaterGrantsDoNotMatter(l, grants, g, n - 1, grants[n - 1].at);
    }
  }

  /** A charged bucket refills from what the charge left; the other buckets are untouched. */
  lemma LevelAfterCharge(l: Limits, buckets: Buckets, r: Request, key: string, t: real)
    ensures Level(l, Charge(l, buckets, r), key, t)
         == if key == r.key then Min(l.burst, DecisionOn(l, buckets, r).remaining + Earned(l, t - r.at))
            else Level(l, buckets, key, t)
  {
    hide Earned;
  }

  lemma UnseenIsFull(l: Limits, buckets: Buckets, key: string, t: real)
    requires key !in buckets
    ensures Level(l, buckets, key, t) == l.burst
  {
    EarnedSplits(l, t, t, t);
  }

  lemma AvailableAfterGrant(l: Limits, grants: seq<Grant>, g: Grant, t: real)
    ensures Available(l, grants + [g], |grants| + 1, t)
         == Min(l.burst, Available(l, grants, |grants|, g.at) - g.tokens + Earned(l, t - g.at))
  {
    hide Earned;
    LaterGrantsDoNotMatter(l, grants, g, |grants|, g.at);
  }

  /** Deciding on what the admissions left, then refilling, is what the admissions leave later. */
  lemma DecideMirrorsGrant(l: Limits, grants: seq<Grant>, level: real, g: Grant, t: real)
    requires l.rps >= 0.0 && g.at <= t
    requires level == Available(l, grants, |grants|, g.at)
    ensures var after := if level >= g.tokens then grants + [g] else grants;
            Available(l, after, |after|, t)
            == Min(l.burst, Decide(l, level, g.tokens).remaining + Earned(l, t - g.at))
  {
    hide Earned;
    if level >= g.tokens {
      AvailableAfterGrant(l, grants, g, t);
    } else {
      AvailableAdvances(l, grants, |grants|, g.at, t);
    }
  }

  /** One request of `key` keeps its bucket and its admissions in step. */
  lemma ChargeMirrorsGrant(l: Limits, buckets: Buckets, grants: seq<Grant>, r: Request, t: real)
    requires l.rps >= 0.0 && r.at <= t
    requires Level(l, buckets, r.key, r.at) == Available(l, grants, |grants|, r.at)
    ensures var after := if DecisionOn(l, buckets, r).allowed then grants + [Grant(r.tokens, r.at)] else grants;
            Level(l, Charge(l, buckets, r), r.key, t) == Available(l, after, |after|, t)
  {
    hide Earned;
    LevelAfterCharge(l, buckets, r, r.key, t);
    DecideMirrorsGrant(l, grants, Level(l, buckets, r.key, r.at), Grant(r.tokens, r.at), t);
  }

  /** The O(1) bucket of every client, seen or not, tells what its admissions leave available. */
  lemma {:induction false} BucketMirrorsGrants(l: Limits, reqs: seq<Request>, key: string, t: real)
    requires l.rps >= 0.0 && Ordered(reqs)
    requires forall r | r in reqs :: r.at <= t
    ensures var grants := GrantsOf(l, reqs, key);
            Level(l, BucketsAfter(l, reqs), key, t) == Available(l, grants, |grants|, t)
  {
    hide Earned;
    if reqs == [] {
      UnseenIsFull(l, map[], key, t);
    } else {
      var n := |reqs| - 1;
      var (before, r) := (reqs[..n], reqs[n]);
      if r.key != key {
        BucketMirrorsGrants(l, before, key, t);
        LevelAfterCharge(l, BucketsAfter(l, before), r, key, t);
      } else {
        BucketMirrorsGrants(l, before, key, r.at);
        ChargeMirrorsGrant(l, BucketsAfter(l, before), GrantsOf(l, before, key), r, t);
      }
    }
  }

  lemma SlackAfterGrant(l: Limits, grants: seq<Grant>, i: nat, n: nat, t: real)
    requires i < n - 1 < |grants|
    ensures Slack(l, grants, i, n, t)
         == Slack(l, grants, i, n - 1, grants[n - 1].at) - grants[n - 1].tokens
            + Earned(l, t - grants[n - 1].at)
  {
    hide Earned;
    EarnedSplits(l, grants[i].at, grants[n - 1].at, t);
  }

  lemma {:induction false} NoWindowTighter(l: Limits, grants: seq<Grant>, i: nat, n: nat, t: real)
    requires i < n <= |grants|
    ensures Available(l, grants, n, t) <= Slack(l, grants, i, n, t)
  {
    hide Earned;
    if i < n - 1 {
      NoWindowTighter(l, grants, i, n - 1, grants[n - 1].at);
      SlackAfterGrant(l, grants, i, n, t);
    } else {
      assert Granted(grants, i, n) == grants[i].tokens;
    }
  }

  /** The window that limits a client, or n if only the bucket's capacity does. */
  lemma {:induction false} TightestWindow(l: Limits, grants: seq<Grant>, n: nat, t: real) returns (i: nat)
    requires n <= |grants|
    ensures i <= n
    ensures Available(l, grants, n, t) == if i == n then l.burst else Slack(l, grants, i, n, t)
  {
    hide Earned;
    i := n;
    if n > 0 && Available(l, grants, n, t) != l.burst {
      i := TightestWindow(l, grants, n - 1, grants[n - 1].at);
      if i < n - 1 {
        SlackAfterGrant(l, grants, i, n, t);
      } else {
        assert Granted(grants, i, n) == grants[i].tokens;
      }
    }
  }

  /** What is available is exactly the tightest window's slack. */
  lemma {:induction false} AvailableIsTightestWindow(
      l: Limits, grants: seq<Grant>, n: nat, tokens: real, t: real)
    requires n <= |grants|
    ensures tokens <= Available(l, grants, n, t) <==> FitsEveryWindow(l, grants, n, tokens, t)
  {
    hide Earned;
    forall i | 0 <= i < n
      ensures Available(l, grants, n, t) <= Slack(l, grants, i, n, t)
    {
      NoWindowTighter(l, grants, i, n, t);
    }
    var i := TightestWindow(l, grants, n, t);
  }

  // ----- Fast form equals slow form -----

  /** A request is allowed exactly when it overfills no window of its client's admissions. */
  lemma {:induction false} WindowSpecification(l: Limits, reqs: seq<Request>, r: Request)
    requires l.rps >= 0.0 && Ordered(reqs + [r])
    ensures var grants := GrantsOf(l, reqs, r.key);
            Answer(l, reqs, r).allowed <==> FitsEveryWindow(l, grants, |grants|, r.tokens, r.at)
  {
    hide Earned;
    BeforeLast(reqs, r);
    BucketMirrorsGrants(l, reqs, r.key, r.at);
    var grants := GrantsOf(l, reqs, r.key);
    AvailableIsTightestWindow(l, grants, |grants|, r.tokens, r.at);
  }

  lemma BeforeLast(reqs: seq<Request>, r: Request)
    requires Ordered(reqs + [r])
    ensures Ordered(reqs) && forall q | q in reqs :: q.at <= r.at
  {
    var all := reqs + [r];
    forall i | 0 <= i < |reqs|
      ensures reqs[i].at <= r.at
    {
      assert all[i].at <= all[|reqs|].at;
    }
    forall i, j | 0 <= i < j < |reqs|
      ensures reqs[i].at <= reqs[j].at
    {
      assert all[i].at <= all[j].at;
    }
  }

  lemma {:induction false} WindowsOfPrefix(l: Limits, grants: seq<Grant>, g: Grant, n: nat, tokens: real, t: real)
    requires n <= |grants|
    ensures FitsEveryWindow(l, grants + [g], n, tokens, t) <==> FitsEveryWindow(l, grants, n, tokens, t)
  {
    hide Earned;
    AvailableIsTightestWindow(l, grants, n, tokens, t);
    AvailableIsTightestWindow(l, grants + [g], n, tokens, t);
    LaterGrantsDoNotMatter(l, grants, g, n, t);
  }

  lemma ConformsAfter(l: Limits, grants: seq<Grant>, g: Grant)
    ensures Conforms(l, grants + [g])
       <==> Conforms(l, grants) && FitsEveryWindow(l, grants, |grants|, g.tokens, g.at)
  {
    hide Earned;
    var all := grants + [g];
    forall n | 0 <= n < |grants|
      ensures FitsEveryWindow(l, all, n, all[n].tokens, all[n].at)
         <==> FitsEveryWindow(l, grants, n, grants[n].tokens, grants[n].at)
    {
      WindowsOfPrefix(l, grants, g, n, grants[n].tokens, grants[n].at);
    }
    WindowsOfPrefix(l, grants, g, |grants|, g.tokens, g.at);
    assert all[|grants|] == g;
  }

  /** No window of any run, of any client, is ever overfilled. */
  lemma {:induction false} NoWindowOverfilled(l: Limits, reqs: seq<Request>, key: string)
    requires l.rps >= 0.0 && Ordered(reqs)
    ensures Conforms(l, GrantsOf(l, reqs, key))
  {
    hide Earned;
    if reqs != [] {
      var n := |reqs| - 1;
      var (before, r) := (reqs[..n], reqs[n]);
      assert reqs == before + [r];
      NoWindowOverfilled(l, before, key);
      if r.key == key && Answer(l, before, r).allowed {
        WindowSpecification(l, before, r);
        ConformsAfter(l, GrantsOf(l, before, key), Grant(r.tokens, r.at));
      }
    }
  }

  /** Hence what any client is granted over any stretch is at most the burst and what it earns meanwhile. */
  lemma {:induction false} WindowBound(l: Limits, reqs: seq<Request>, key: string, i: nat, j: nat)
    requires l.rps >= 0.0 && Ordered(reqs) && i < j <= |GrantsOf(l, reqs, key)|
    ensures var grants := GrantsOf(l, reqs, key);
            Granted(grants, i, j) <= l.burst + Earned(l, grants[j - 1].at - grants[i].at)
  {
    hide Earned;
    var grants := GrantsOf(l, reqs, key);
    NoWindowOverfilled(l, reqs, key);
    assert FitsEveryWindow(l, grants, j - 1, grants[j - 1].tokens, grants[j - 1].at);
    assert Granted(grants, i, j) == Granted(grants, i, j - 1) + grants[j - 1].tokens;
    if i == j - 1 {
      EarnedSplits(l, grants[i].at, grants[i].at, grants[j - 1].at);
    } else {
      assert grants[j - 1].tokens <= Slack(l, grants, i, j - 1, grants[j - 1].at);
    }
  }

  /** The same bound in the configured rate. */
  lemma {:induction false} RateBound(l: Limits, reqs: seq<Request>, key: string, i: nat, j: nat)
    requires l.rps >= 0.0 && Ordered(reqs) && i < j <= |GrantsOf(l, reqs, key)|
    ensures var grants := GrantsOf(l, reqs, key);
            Granted(grants, i, j) <= l.burst + (grants[j - 1].at - grants[i].at) * l.rps
  {
    hide GrantsOf, Granted, Ordered;
    WindowBound(l, reqs, key, i, j);
  }

  // ----- Greedy is optimal -----

  /** What another policy, answering `choices`, would have granted to `key`. */
  ghost function ChosenGrants(reqs: seq<Request>, choices: seq<bool>, key: string): seq<Grant>
    requires |choices| == |reqs|
  {
    if reqs == [] then []
    else
      var n := |reqs| - 1;
      var before := ChosenGrants(reqs[..n], choices[..n], key);
      if reqs[n].key == key && choices[n] then before + [Grant(reqs[n].tokens, reqs[n].at)] else before
  }

  ghost predicate UnitRequests(reqs: seq<Request>) {
    forall r | r in reqs :: r.tokens == 1.0
  }

  /** One refill never widens the other policy's head start beyond our lead. */
  lemma RefillKeepsLead(l: Limits, ours: real, theirs: real, lead: real, dt: real)
    requires theirs - ours <= lead && 0.0 <= lead
    ensures Min(l.burst, theirs + Earned(l, dt)) - Min(l.burst, ours + Earned(l, dt)) <= lead
  {
    hide Earned;
  }

  lemma ChoiceThenRefill(l: Limits, grants: seq<Grant>, g: Grant, chosen: bool, t: real)
    requires l.rps >= 0.0 && g.at <= t
    requires chosen ==> FitsEveryWindow(l, grants, |grants|, g.tokens, g.at)
    ensures chosen ==> Available(l, grants, |grants|, g.at) >= g.tokens
    ensures var after := if chosen then grants + [g] else grants;
            var kept := Available(l, grants, |grants|, g.at) - (if chosen then g.tokens else 0.0);
            Available(l, after, |after|, t) == Min(l.burst, kept + Earned(l, t - g.at))
  {
    hide Earned;
    if chosen {
      AvailableIsTightestWindow(l, grants, |grants|, g.tokens, g.at);
      AvailableAfterGrant(l, grants, g, t);
    } else {
      AvailableAdvances(l, grants, |grants|, g.at, t);
    }
  }

  lemma LeadAfter(l: Limits, ours: seq<Grant>, theirs: seq<Grant>, g: Grant, chosen: bool, t: real)
    requires l.rps >= 0.0 && g.tokens == 1.0 && g.at <= t
    requires |ours| >= |theirs|
    requires Available(l, theirs, |theirs|, g.at) - Available(l, ours, |ours|, g.at)
          <= (|ours| - |theirs|) as real
    requires chosen ==> FitsEveryWindow(l, theirs, |theirs|, 1.0, g.at)
    ensures var ours' := if Available(l, ours, |ours|, g.at) >= 1.0 then ours + [g] else ours;
            var theirs' := if chosen then theirs + [g] else theirs;
            |ours'| >= |theirs'|
            && Available(l, theirs', |theirs'|, t) - Available(l, ours', |ours'|, t)
               <= (|ours'| - |theirs'|) as real
  {
    hide Earned;
    var level := Available(l, ours, |ours|, g.at);
    var other := Available(l, theirs, |theirs|, g.at);
    DecideMirrorsGrant(l, ours, level, g, t);
    ChoiceThenRefill(l, theirs, g, chosen, t);
    var lead := |ours| - |theirs| + (if level >= 1.0 then 1 else 0) - (if chosen then 1 else 0);
    assert lead >= 0;
    RefillKeepsLead(l, if level >= 1.0 then level - 1.0 else level, if chosen then other - 1.0 else other,
                    lead as real, t - g.at);
  }

  /** The other policy's tokens exceed ours by at most our lead, which is never negative. */
  lemma {:induction false} GreedyLead(
      l: Limits, reqs: seq<Request>, choices: seq<bool>, key: string, t: real)
    requires l.rps >= 0.0 && Ordered(reqs) && UnitRequests(reqs) && |choices| == |reqs|
    requires forall r | r in reqs :: r.at <= t
    requires Conforms(l, ChosenGrants(reqs, choices, key))
    ensures var ours := GrantsOf(l, reqs, key);
            var theirs := ChosenGrants(reqs, choices, key);
            |ours| >= |theirs|
            && Available(l, theirs, |theirs|, t) - Available(l, ours, |ours|, t) <= (|ours| - |theirs|) as real
  {
    hide Earned;
    if reqs != [] {
      var n := |reqs| - 1;
      var (before, r) := (reqs[..n], reqs[n]);
      assert reqs == before + [r];
      BeforeLast(before, r);
      var theirs := ChosenGrants(before, choices[..n], key);
      var ours := GrantsOf(l, before, key);
      var g := Grant(r.tokens, r.at);
      if r.key == key && choices[n] {
        ConformsAfter(l, theirs, g);
      }
      if r.key != key {
        GreedyLead(l, before, choices[..n], key, t);
      } else {
        GreedyLead(l, before, choices[..n], key, r.at);
        LeadAfter(l, ours, theirs, g, choices[n], t);
        BucketMirrorsGrants(l, before, key, r.at);
      }
    }
  }

  lemma {:induction false} WithinLast(reqs: seq<Request>)
    requires Ordered(reqs) && reqs != []
    ensures forall r | r in reqs :: r.at <= reqs[|reqs| - 1].at
  {
    forall r | r in reqs
      ensures r.at <= reqs[|reqs| - 1].at
    {
      var i :| 0 <= i < |reqs| && reqs[i] == r;
      assert i < |reqs| - 1 ==> reqs[i].at <= reqs[|reqs| - 1].at;
    }
  }

  /**
   After every run the bucket has admitted at least as many requests of each client as
   any policy that overfills no window.
   */
  lemma {:induction false} GreedyIsOptimal(l: Limits, reqs: seq<Request>, choices: seq<bool>, key: string)
    requires l.rps >= 0.0 && Ordered(reqs) && UnitRequests(reqs) && |choices| == |reqs|
    requires Conforms(l, ChosenGrants(reqs, choices, key))
    ensures |GrantsOf(l, reqs, key)| >= |ChosenGrants(reqs, choices, key)|
  {
    hide Earned, Available;
    if reqs != [] {
      WithinLast(reqs);
      GreedyLead(l, reqs, choices, key, reqs[|reqs| - 1].at);
    }
  }
}

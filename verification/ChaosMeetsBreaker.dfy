/**
 Error injection in one service seen through the breaker of another: calls made one
 at a time, each failing exactly when the accumulator spills.
 */
module ChaosMeetsBreaker {
  import BreakerRuns
  import opened CircuitBreaking
  import opened ErrorInjection
  import opened Numbers

  datatype Link = Link(injector: Injector, breaker: Breaker)

  /** A call let in at `.0` and answered at `.1`; a rejected one never reaches the other service. */
  function Call(cfg: Config, link: Link, at: (real, real)): Link {
    var entered := CircuitBreaking.Step(cfg, link.breaker, Enter(at.0));
    if !Admits(cfg, link.breaker.rec, at.0) then link.(breaker := entered)
    else
      Link(Decided(link.injector),
           CircuitBreaking.Step(cfg, entered, if Injects(link.injector) then Fail(at.1) else Succeed(at.1)))
  }

  function Calls(cfg: Config, link: Link, at: seq<(real, real)>): Link {
    if at == [] then link else Call(cfg, Calls(cfg, link, at[..|at| - 1]), at[|at| - 1])
  }

  /** How many of the calls reached the other service. */
  function CallsLetThrough(cfg: Config, link: Link, at: seq<(real, real)>): nat {
    if at == [] then 0
    else
      var n := |at| - 1;
      CallsLetThrough(cfg, link, at[..n])
      + (if Admits(cfg, Calls(cfg, link, at[..n]).breaker.rec, at[n].0) then 1 else 0)
  }

  function StepsOfCall(admitted: bool, fails: bool, at: (real, real)): seq<Op> {
    if admitted then [Enter(at.0), if fails then Fail(at.1) else Succeed(at.1)] else [Enter(at.0)]
  }

  /** The breaker's steps: the k-th call let through fails exactly when the k-th decision injects. */
  function StepsOfCalls(cfg: Config, link: Link, at: seq<(real, real)>): seq<Op> {
    if at == [] then []
    else
      var n := |at| - 1;
      StepsOfCalls(cfg, link, at[..n])
      + StepsOfCall(Admits(cfg, Calls(cfg, link, at[..n]).breaker.rec, at[n].0),
                    InjectsAt(link.injector, CallsLetThrough(cfg, link, at[..n])), at[n])
  }

  lemma CallIsARun(cfg: Config, link: Link, steps: seq<Op>, at: (real, real))
    requires link.breaker == BreakerRuns.Run(cfg, steps)
    ensures Call(cfg, link, at).breaker
         == BreakerRuns.Run(cfg, steps + StepsOfCall(Admits(cfg, link.breaker.rec, at.0), Injects(link.injector), at))
  {
    hide CircuitBreaking.Step, BreakerRuns.Run, Admits, Injects;
    var entered := steps + [Enter(at.0)];
    var outcome := if Injects(link.injector) then Fail(at.1) else Succeed(at.1);
    BreakerRuns.RunAppend(cfg, steps, Enter(at.0));
    BreakerRuns.RunAppend(cfg, entered, outcome);
    assert entered + [outcome] == steps + [Enter(at.0), outcome];
  }

  /**
   In every state of the breaker a decision is made for the calls let through and for no
   other, and the calls are a run of the breaker, continuing the one that led to it.
   */
  lemma {:induction false} CallsAreARun(cfg: Config, link: Link, earlier: seq<Op>, at: seq<(real, real)>)
    requires link.breaker == BreakerRuns.Run(cfg, earlier)
    ensures Calls(cfg, link, at).injector == After(link.injector, CallsLetThrough(cfg, link, at))
    ensures Calls(cfg, link, at).breaker == BreakerRuns.Run(cfg, earlier + StepsOfCalls(cfg, link, at))
  {
    hide StepsOfCall, CircuitBreaking.Step, Admits, Injects, Decided, BreakerRuns.Run;
    if at == [] {
      assert earlier + [] == earlier;
    } else {
      var n := |at| - 1;
      var before := Calls(cfg, link, at[..n]);
      var steps := StepsOfCalls(cfg, link, at[..n]);
      CallsAreARun(cfg, link, earlier, at[..n]);
      CallIsARun(cfg, before, earlier + steps, at[n]);
      var more := StepsOfCall(Admits(cfg, before.breaker.rec, at[n].0), Injects(before.injector), at[n]);
      assert StepsOfCalls(cfg, link, at) == steps + more;
      assert earlier + (steps + more) == earlier + steps + more;
    }
  }

  /** A breaker found CLOSED when the error rate has just been set. */
  ghost predicate JustConfigured(cfg: Config, link: Link) {
    && cfg.failureThreshold >= 1
    && link.injector.Valid() && link.injector.accumulator == 0.0
    && link.breaker.rec.state == Closed && link.breaker.rec.failures < cfg.failureThreshold
  }

  predicate Tripped(cfg: Config, link: Link, at: seq<(real, real)>) {
    Calls(cfg, link, at).breaker.rec.state == Open
  }

  // ----- Low rates never trip -----

  /** Either the next call succeeds, or the failures so far have used up the room for more. */
  ghost predicate Calm(link: Link) {
    var gap := 1.0 - link.injector.rate;
    && link.injector.Valid() && link.breaker.rec.state == Closed
    && (link.injector.accumulator < gap
        || link.injector.accumulator + Shares(gap, link.breaker.rec.failures) < 1.0)
  }

  lemma {:induction false} StaysCalm(cfg: Config, link: Link, at: (real, real))
    requires Calm(link) && cfg.failureThreshold >= 1
    requires Shares(1.0 - link.injector.rate, cfg.failureThreshold) >= 1.0
    ensures Calm(Call(cfg, link, at)) && Call(cfg, link, at).injector.rate == link.injector.rate
  {
    var gap := 1.0 - link.injector.rate;
    var failures := link.breaker.rec.failures;
    if Injects(link.injector) && failures + 1 >= cfg.failureThreshold {
      SharesGrow(gap, cfg.failureThreshold, failures + 1);
      assert false;
    }
  }

  lemma {:induction false} CalmThroughout(cfg: Config, link: Link, at: seq<(real, real)>)
    requires Calm(link) && cfg.failureThreshold >= 1
    requires Shares(1.0 - link.injector.rate, cfg.failureThreshold) >= 1.0
    ensures Calm(Calls(cfg, link, at)) && Calls(cfg, link, at).injector.rate == link.injector.rate
  {
    hide Calm, Call, Shares;
    if at != [] {
      CalmThroughout(cfg, link, at[..|at| - 1]);
      StaysCalm(cfg, Calls(cfg, link, at[..|at| - 1]), at[|at| - 1]);
    }
  }

  /** At a rate of at most (F - 1)/F no number of calls opens the breaker. */
  lemma {:induction false} NeverTrips(cfg: Config, link: Link, at: seq<(real, real)>)
    requires JustConfigured(cfg, link)
    requires cfg.failureThreshold as real * (1.0 - link.injector.rate) >= 1.0
    ensures !Tripped(cfg, link, at)
  {
    SharesMultiply(1.0 - link.injector.rate, cfg.failureThreshold);
    assert link.injector.rate != 1.0;
    hide Shares, Calls;
    CalmThroughout(cfg, link, at);
  }

  // ----- Higher rates trip at a known call -----

  /** Below the gap the next call succeeds and gains the rate; from the gap on it fails and loses the gap. */
  lemma CallOnClosed(cfg: Config, link: Link, at: (real, real))
    requires link.injector.Active() && link.breaker.rec.state == Closed
    ensures var gap := 1.0 - link.injector.rate;
            var after := Call(cfg, link, at);
            if link.injector.accumulator < gap then
              after.injector == link.injector.(accumulator := link.injector.accumulator + 1.0 - gap)
              && after.breaker.rec.state == Closed && after.breaker.rec.failures == 0
            else
              after.injector == link.injector.(accumulator := link.injector.accumulator - gap)
              && after.breaker.rec.failures == link.breaker.rec.failures + 1
              && after.breaker.rec.state
                 == if after.breaker.rec.failures >= cfg.failureThreshold then Open else Closed
  {
  }

  /**
   Each cycle of F calls is one success and F - 1 failures, and leaves the accumulator
   1 - F * gap higher; the k-th cycle's success and its first j failures have been made.
   */
  lemma {:induction false} Spiral(cfg: Config, link: Link, at: seq<(real, real)>, k: nat, j: nat)
    requires JustConfigured(cfg, link) && link.injector.rate < 1.0
    requires j < cfg.failureThreshold && |at| == 1 + Lots(cfg.failureThreshold, k) + j
    requires var gap := 1.0 - link.injector.rate;
             Shares(gap, cfg.failureThreshold) < 1.0
             && Shares(1.0 - Shares(gap, cfg.failureThreshold), k) < gap
    ensures var gap := 1.0 - link.injector.rate;
            var now := Calls(cfg, link, at);
            && now.breaker.rec.state == Closed && now.breaker.rec.failures == j
            && now.injector == link.injector.(accumulator :=
                 Shares(1.0 - Shares(gap, cfg.failureThreshold), k) + 1.0 - gap - Shares(gap, j))
    decreases k, j
  {
    var threshold := cfg.failureThreshold;
    var gap := 1.0 - link.injector.rate;
    var rise := 1.0 - Shares(gap, threshold);
    var before := at[..|at| - 1];
    SharesGrow(gap, 1, threshold);
    assert Shares(gap, 1) == Shares(gap, 0) + gap;
    if j > 0 {
      SharesGrow(gap, j + 1, threshold);
      SharesGrow(rise, 0, k);
      Spiral(cfg, link, before, k, j - 1);
    } else if k > 0 {
      SharesGrow(rise, k - 1, k);
      Spiral(cfg, link, before, k - 1, threshold - 1);
    } else {
      assert before == [];
    }
    CallOnClosed(cfg, Calls(cfg, link, before), at[|at| - 1]);
    hide Call;
  }

  /** The number of cycles after which the accumulator reaches the gap. */
  function Cycles(cfg: Config, rate: real): int
    requires cfg.failureThreshold as real * (1.0 - rate) < 1.0
  {
    Ceil((1.0 - rate) / (1.0 - cfg.failureThreshold as real * (1.0 - rate)))
  }

  /** Fewer cycles leave the accumulator short of the gap; that many reach it. */
  lemma CyclesReachGap(cfg: Config, rate: real, k: nat)
    requires cfg.failureThreshold >= 1 && cfg.failureThreshold as real * (1.0 - rate) < 1.0
    ensures Shares(1.0 - rate, cfg.failureThreshold) < 1.0
    ensures Shares(1.0 - Shares(1.0 - rate, cfg.failureThreshold), k) < 1.0 - rate
       <==> k < Cycles(cfg, rate)
  {
    var gap := 1.0 - rate;
    var rise := 1.0 - Shares(gap, cfg.failureThreshold);
    SharesMultiply(gap, cfg.failureThreshold);
    SharesMultiply(rise, k);
    QuotientBound(k, gap, rise);
    BelowCeil(k, gap / rise);
  }

  lemma AtLeastOneCycle(cfg: Config, rate: real)
    requires cfg.failureThreshold >= 1 && cfg.failureThreshold as real * (1.0 - rate) < 1.0 && rate < 1.0
    ensures Cycles(cfg, rate) >= 1
  {
    CyclesReachGap(cfg, rate, 0);
  }

  /** Through all its cycles the breaker stays CLOSED. */
  lemma ClosedUntil(cfg: Config, link: Link, at: seq<(real, real)>)
    requires JustConfigured(cfg, link) && link.injector.rate < 1.0
    requires cfg.failureThreshold as real * (1.0 - link.injector.rate) < 1.0
    ensures var k := Cycles(cfg, link.injector.rate);
            k >= 0 && |at| <= Lots(cfg.failureThreshold, k) ==> !Tripped(cfg, link, at)
  {
    hide Cycles;
    var k := Cycles(cfg, link.injector.rate);
    if at != [] && k >= 0 && |at| <= Lots(cfg.failureThreshold, k) {
      var i, j := LotsAndRest(cfg.failureThreshold, |at| - 1);
      LotsGrow(cfg.failureThreshold, i, k);
      CyclesReachGap(cfg, link.injector.rate, i);
      Spiral(cfg, link, at, i, j);
    }
  }

  /** The first failure beyond a cycle's F - 1 opens it. */
  lemma OpenAt(cfg: Config, link: Link, at: seq<(real, real)>)
    requires JustConfigured(cfg, link) && link.injector.rate < 1.0
    requires cfg.failureThreshold as real * (1.0 - link.injector.rate) < 1.0
    ensures var k := Cycles(cfg, link.injector.rate);
            k >= 1 && |at| == Lots(cfg.failureThreshold, k) + 1 ==> Tripped(cfg, link, at)
  {
    hide Cycles;
    var k := Cycles(cfg, link.injector.rate);
    if k >= 1 && |at| == Lots(cfg.failureThreshold, k) + 1 {
      CyclesReachGap(cfg, link.injector.rate, k);
      CyclesReachGap(cfg, link.injector.rate, k - 1);
      Spiral(cfg, link, at[..|at| - 1], k - 1, cfg.failureThreshold - 1);
    }
  }

  /**
   At a rate r below 1 but above (F - 1)/F the breaker opens, for the first time, at call
   F * ceil((1 - r) / (1 - F * (1 - r))) + 1 since the rate was set.
   */
  lemma TripsExactlyAt(cfg: Config, link: Link, at: seq<(real, real)>)
    requires JustConfigured(cfg, link) && link.injector.rate < 1.0
    requires cfg.failureThreshold as real * (1.0 - link.injector.rate) < 1.0
    ensures |at| < cfg.failureThreshold * Cycles(cfg, link.injector.rate) + 1 ==> !Tripped(cfg, link, at)
    ensures |at| == cfg.failureThreshold * Cycles(cfg, link.injector.rate) + 1 ==> Tripped(cfg, link, at)
  {
    AtLeastOneCycle(cfg, link.injector.rate);
    ClosedUntil(cfg, link, at);
    OpenAt(cfg, link, at);
    hide Cycles, Lots;
    LotsMultiply(cfg.failureThreshold, Cycles(cfg, link.injector.rate));
  }

  /** When every call fails the breaker opens as soon as its count is full. */
  lemma {:induction false} CertainFailure(cfg: Config, link: Link, at: seq<(real, real)>)
    requires JustConfigured(cfg, link) && link.injector.rate == 1.0
    requires |at| <= cfg.failureThreshold - link.breaker.rec.failures
    ensures Tripped(cfg, link, at) <==> |at| == cfg.failureThreshold - link.breaker.rec.failures
    ensures Calls(cfg, link, at).injector == link.injector
    ensures Calls(cfg, link, at).breaker.rec.failures == link.breaker.rec.failures + |at|
    ensures !Tripped(cfg, link, at) ==> Calls(cfg, link, at).breaker.rec.state == Closed
  {
    if at != [] {
      CertainFailure(cfg, link, at[..|at| - 1]);
    }
  }

  /** An injected rate can trip the breaker if and only if it exceeds (F - 1)/F. */
  lemma {:induction false} TripsIffAbove(cfg: Config, link: Link)
    requires JustConfigured(cfg, link)
    ensures (exists at :: Tripped(cfg, link, at))
       <==> cfg.failureThreshold as real * (1.0 - link.injector.rate) < 1.0
  {
    var rate := link.injector.rate;
    if cfg.failureThreshold as real * (1.0 - rate) >= 1.0 {
      forall at
        ensures !Tripped(cfg, link, at)
      {
        NeverTrips(cfg, link, at);
      }
    } else {
      var n := if rate == 1.0 then cfg.failureThreshold - link.breaker.rec.failures
               else cfg.failureThreshold * Cycles(cfg, rate) + 1;
      var at := seq(n, i => (0.0, 0.0));
      if rate == 1.0 {
        CertainFailure(cfg, link, at);
      } else {
        AtLeastOneCycle(cfg, rate);
        TripsExactlyAt(cfg, link, at);
      }
      assert Tripped(cfg, link, at);
    }
  }

  lemma OneCycle(cfg: Config, rate: real)
    requires cfg.failureThreshold >= 1 && rate < 1.0
    requires rate >= cfg.failureThreshold as real / (cfg.failureThreshold + 1) as real
    ensures cfg.failureThreshold as real * (1.0 - rate) < 1.0 && Cycles(cfg, rate) == 1
  {
    var threshold := cfg.failureThreshold as real;
    var gap := 1.0 - rate;
    assert threshold / (threshold + 1.0) * (threshold + 1.0) == threshold;
    assert rate * (threshold + 1.0) >= threshold;
    assert threshold * gap + gap <= 1.0;
    var rise := 1.0 - threshold * gap;
    QuotientBound(1, gap, rise);
    QuotientBound(0, gap, rise);
    BelowCeil(1, gap / rise);
    BelowCeil(0, gap / rise);
  }

  /** From F/(F + 1) up, the first F + 1 calls are enough. */
  lemma {:induction false} TripsWithin(cfg: Config, link: Link, at: seq<(real, real)>) returns (n: nat)
    requires JustConfigured(cfg, link) && |at| == cfg.failureThreshold + 1
    requires link.injector.rate >= cfg.failureThreshold as real / (cfg.failureThreshold + 1) as real
    ensures n <= |at| && Tripped(cfg, link, at[..n])
  {
    if link.injector.rate == 1.0 {
      n := cfg.failureThreshold - link.breaker.rec.failures;
      CertainFailure(cfg, link, at[..n]);
    } else {
      OneCycle(cfg, link.injector.rate);
      n := |at|;
      assert at[..n] == at;
      TripsExactlyAt(cfg, link, at);
    }
  }

  /** Four errors in five calls never open the breaker whose threshold is five. */
  lemma EightyPercentNeverTripsFive(cfg: Config, link: Link, at: seq<(real, real)>)
    requires cfg.failureThreshold == 5 && link.breaker.rec.state == Closed && link.breaker.rec.failures < 5
    requires link.injector == Configured(true, 80.0)
    ensures !Tripped(cfg, link, at)
  {
    NeverTrips(cfg, link, at);
  }
}

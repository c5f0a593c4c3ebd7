/** The outage bound is attained: for any overlap and any number of timeouts some run lets that many calls through. */
module OutageTightness {
  import opened Numbers
  import opened Options
  import opened CircuitBreaking
  import opened BreakerRuns

  function Repeat(op: Op, n: nat): seq<Op> {
    if n == 0 then [] else Repeat(op, n - 1) + [op]
  }

  /** Failures one call at a time. */
  function OneByOne(n: nat, at: real): seq<Op> {
    if n == 0 then [] else OneByOne(n - 1, at) + [Enter(at)] + [Fail(at)]
  }

  /** One more wave of c overlapping calls that all fail. */
  ghost function Wave(before: seq<Op>, c: nat, at: real): seq<Op> {
    before + Repeat(Enter(at), c) + Repeat(Fail(at), c)
  }

  /** One failure short of the threshold, then c overlapping calls at once and again after each of k timeouts. */
  ghost function WorstCase(cfg: Config, c: nat, start: real, k: nat): seq<Op>
    requires cfg.failureThreshold >= 1
  {
    var at := start + Shares(cfg.recoveryTimeout, k);
    Wave(if k == 0 then OneByOne(cfg.failureThreshold - 1, start) else WorstCase(cfg, c, start, k - 1), c, at)
  }

  /** A run within the outage bound's terms, up to the clock reading `now`. */
  ghost predicate Proper(cfg: Config, ops: seq<Op>, c: nat, start: real, now: real) {
    Ordered(ops) && Outage(ops, start) && AtMostInFlight(cfg, ops, c) && forall op | op in ops :: op.at <= now
  }

  lemma ProperLater(cfg: Config, ops: seq<Op>, c: nat, start: real, now: real, later: real)
    requires Proper(cfg, ops, c, start, now) && now <= later
    ensures Proper(cfg, ops, c, start, later)
  {
  }

  lemma NothingYet(cfg: Config, c: nat, start: real)
    ensures Proper(cfg, [], c, start, start) && Run(cfg, []) == FRESH_BREAKER
    ensures Admitted(cfg, []) == 0 && InFlight(cfg, []) == 0
  {
  }

  lemma Appended(cfg: Config, ops: seq<Op>, op: Op, c: nat, start: real)
    requires Proper(cfg, ops, c, start, op.at) && start <= op.at
    requires if op.Enter? then InFlight(cfg, ops) < c else op.Fail? && InFlight(cfg, ops) > 0
    ensures Proper(cfg, ops + [op], c, start, op.at)
    ensures Run(cfg, ops + [op]) == Step(cfg, Run(cfg, ops), op)
    ensures var passed := op.Enter? && Admits(cfg, Run(cfg, ops).rec, op.at);
            && Admitted(cfg, ops + [op]) == Admitted(cfg, ops) + (if passed then 1 else 0)
            && InFlight(cfg, ops + [op])
               == InFlight(cfg, ops) + (if op.Fail? then -1 else if passed then 1 else 0)
  {
    assert Init(ops + [op]) == ops;
  }

  lemma {:induction false} Entering(cfg: Config, ops: seq<Op>, c: nat, start: real, at: real, n: nat)
    requires Proper(cfg, ops, c, start, at) && start <= at && InFlight(cfg, ops) == 0 && n <= c
    requires Admits(cfg, Run(cfg, ops).rec, at)
    ensures var after := ops + Repeat(Enter(at), n);
            && Proper(cfg, after, c, start, at)
            && Admitted(cfg, after) == Admitted(cfg, ops) + n && InFlight(cfg, after) == n
            && Run(cfg, after).rec == if n == 0 then Run(cfg, ops).rec else Entered(cfg, Run(cfg, ops), at).rec
  {
    hide Proper, Run, InFlight, Admitted;
    if n == 0 {
      assert ops + Repeat(Enter(at), n) == ops;
    } else {
      var before := ops + Repeat(Enter(at), n - 1);
      Entering(cfg, ops, c, start, at, n - 1);
      assert ops + Repeat(Enter(at), n) == before + [Enter(at)];
      Appended(cfg, before, Enter(at), c, start);
    }
  }

  /** The first failure opens the breaker; the late ones leave the stamp where it is. */
  lemma {:induction false} Failing(cfg: Config, ops: seq<Op>, c: nat, start: real, at: real, n: nat)
    requires Proper(cfg, ops, c, start, at) && start <= at && 1 <= n <= InFlight(cfg, ops)
    requires var rec := Run(cfg, ops).rec;
             rec.state == HalfOpen || (rec.state == Closed && rec.failures + 1 == cfg.failureThreshold)
    ensures var after := ops + Repeat(Fail(at), n);
            && Proper(cfg, after, c, start, at)
            && Admitted(cfg, after) == Admitted(cfg, ops) && InFlight(cfg, after) == InFlight(cfg, ops) - n
            && Run(cfg, after).rec.state == Open && Run(cfg, after).rec.openedAt == Some(at)
  {
    hide Proper, Run, InFlight, Admitted;
    var before := ops + Repeat(Fail(at), n - 1);
    if n == 1 {
      assert before == ops;
    } else {
      Failing(cfg, ops, c, start, at, n - 1);
    }
    assert ops + Repeat(Fail(at), n) == before + [Fail(at)];
    Appended(cfg, before, Fail(at), c, start);
  }

  lemma {:induction false} WarmingUp(cfg: Config, c: nat, start: real, n: nat)
    requires c >= 1 && n < cfg.failureThreshold
    ensures var ops := OneByOne(n, start);
            && Proper(cfg, ops, c, start, start) && Admitted(cfg, ops) == n && InFlight(cfg, ops) == 0
            && Run(cfg, ops).rec == Record(Closed, n, 0, None)
  {
    hide Proper, Run, InFlight, Admitted;
    NothingYet(cfg, c, start);
    if n > 0 {
      var before := OneByOne(n - 1, start);
      WarmingUp(cfg, c, start, n - 1);
      Appended(cfg, before, Enter(start), c, start);
      Appended(cfg, before + [Enter(start)], Fail(start), c, start);
    }
  }

  lemma WavePasses(cfg: Config, before: seq<Op>, c: nat, start: real, at: real)
    requires c >= 1 && Proper(cfg, before, c, start, at) && start <= at && InFlight(cfg, before) == 0
    requires var rec := Run(cfg, before).rec;
             Admits(cfg, rec, at)
             && (rec.state == Open || (rec.state == Closed && rec.failures + 1 == cfg.failureThreshold))
    ensures var ops := Wave(before, c, at);
            && ops != [] && Last(ops) == Fail(at) && Proper(cfg, ops, c, start, at) && InFlight(cfg, ops) == 0
            && Admitted(cfg, ops) == Admitted(cfg, before) + c
            && Run(cfg, ops).rec.state == Open && Run(cfg, ops).rec.openedAt == Some(at)
  {
    hide Proper, Run, InFlight, Admitted;
    Entering(cfg, before, c, start, at, c);
    Failing(cfg, before + Repeat(Enter(at), c), c, start, at, c);
    assert Wave(before, c, at) == before + Repeat(Enter(at), c) + Repeat(Fail(at), c - 1) + [Fail(at)];
  }

  /** Where the k-th wave leaves the run. */
  ghost predicate AfterWave(cfg: Config, ops: seq<Op>, c: nat, start: real, k: nat) {
    var now := start + Shares(cfg.recoveryTimeout, k);
    && ops != [] && Last(ops) == Fail(now) && Proper(cfg, ops, c, start, now) && InFlight(cfg, ops) == 0
    && Admitted(cfg, ops) == cfg.failureThreshold - 1 + c + Lots(c, k)
    && Run(cfg, ops).rec.state == Open && Run(cfg, ops).rec.openedAt == Some(now)
  }

  lemma FirstWave(cfg: Config, c: nat, start: real)
    requires cfg.Sensible() && c >= 1
    ensures AfterWave(cfg, WorstCase(cfg, c, start, 0), c, start, 0)
  {
    hide Proper, Run, InFlight, Admitted, Wave;
    WarmingUp(cfg, c, start, cfg.failureThreshold - 1);
    hide OneByOne;
    WavePasses(cfg, OneByOne(cfg.failureThreshold - 1, start), c, start, start);
  }

  lemma NextWave(cfg: Config, ops: seq<Op>, c: nat, start: real, k: nat)
    requires cfg.Sensible() && c >= 1 && AfterWave(cfg, ops, c, start, k)
    ensures AfterWave(cfg, Wave(ops, c, start + Shares(cfg.recoveryTimeout, k + 1)), c, start, k + 1)
  {
    hide Proper, Run, InFlight, Admitted, Wave;
    var (now, later) := (start + Shares(cfg.recoveryTimeout, k), start + Shares(cfg.recoveryTimeout, k + 1));
    assert later == now + cfg.recoveryTimeout;
    SharesGrow(cfg.recoveryTimeout, 0, k);
    ProperLater(cfg, ops, c, start, now, later);
    hide Shares;
    WavePasses(cfg, ops, c, start, later);
  }

  lemma {:induction false} WaveByWave(cfg: Config, c: nat, start: real, k: nat)
    requires cfg.Sensible() && c >= 1
    ensures AfterWave(cfg, WorstCase(cfg, c, start, k), c, start, k)
  {
    hide AfterWave;
    if k == 0 {
      FirstWave(cfg, c, start);
    } else {
      WaveByWave(cfg, c, start, k - 1);
      NextWave(cfg, WorstCase(cfg, c, start, k - 1), c, start, k - 1);
    }
  }

  /** The run is an outage with at most c calls in flight. */
  lemma {:induction false} WorstCaseIsOutage(cfg: Config, c: nat, start: real, k: nat)
    requires cfg.Sensible() && c >= 1
    ensures var ops := WorstCase(cfg, c, start, k);
            Ordered(ops) && Outage(ops, start) && AtMostInFlight(cfg, ops, c)
  {
    hide Run, InFlight, Admitted, WorstCase, Ordered, Outage, AtMostInFlight;
    WaveByWave(cfg, c, start, k);
  }

  /** At its last step, k timeouts after the start, it has let through as many calls as the bound allows. */
  lemma {:induction false} BoundAttained(cfg: Config, c: nat, start: real, k: nat)
    requires cfg.Sensible() && c >= 1
    ensures var ops := WorstCase(cfg, c, start, k);
            && ops != [] && Last(ops).at == start + k as real * cfg.recoveryTimeout
            && Admitted(cfg, ops) == (cfg.failureThreshold - 1 + c) + c * k
  {
    hide Run, InFlight, Admitted, WorstCase, Proper;
    WaveByWave(cfg, c, start, k);
    LotsMultiply(c, k);
    SharesMultiply(cfg.recoveryTimeout, k);
  }
}

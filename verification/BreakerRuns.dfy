/**
 Whole runs of a breaker: any interleaving of admissions, outcomes and
 cancellations of overlapping calls, each step stamped with the clock it read.
 */
module BreakerRuns {
  import opened Options
  import opened CircuitBreaking
  import opened Numbers

  /** A nondecreasing clock. */
  ghost predicate Ordered(ops: seq<Op>) {
    forall i, j | 0 <= i < j < |ops| :: ops[i].at <= ops[j].at
  }

  function Init(ops: seq<Op>): seq<Op>
    requires ops != []
  {
    ops[..|ops| - 1]
  }

  function Last(ops: seq<Op>): Op
    requires ops != []
  {
    ops[|ops| - 1]
  }

  function Run(cfg: Config, ops: seq<Op>): Breaker {
    if ops == [] then FRESH_BREAKER else Step(cfg, Run(cfg, Init(ops)), Last(ops))
  }

  // ----- What a state says about the history that led to it -----

  /** The outcomes recorded since the breaker last changed state (true for a success). */
  ghost function PhaseOutcomes(cfg: Config, ops: seq<Op>): seq<bool> {
    if ops == [] then []
    else if Run(cfg, ops).rec.state != Run(cfg, Init(ops)).rec.state then []
    else
      match Last(ops)
      case Succeed(_) => PhaseOutcomes(cfg, Init(ops)) + [true]
      case Fail(_) => PhaseOutcomes(cfg, Init(ops)) + [false]
      case _ => PhaseOutcomes(cfg, Init(ops))
  }

  /** When the present state was entered. */
  ghost function PhaseStart(cfg: Config, ops: seq<Op>): real {
    if ops == [] then 0.0
    else if Run(cfg, ops).rec.state != Run(cfg, Init(ops)).rec.state then Last(ops).at
    else PhaseStart(cfg, Init(ops))
  }

  /** How many of the latest outcomes are consecutive failures. */
  ghost function FailureSuffix(outcomes: seq<bool>): nat {
    if outcomes == [] || outcomes[|outcomes| - 1] then 0
    else 1 + FailureSuffix(outcomes[..|outcomes| - 1])
  }

  lemma FailureSuffixGrows(outcomes: seq<bool>)
    ensures FailureSuffix(outcomes + [true]) == 0
    ensures FailureSuffix(outcomes + [false]) == FailureSuffix(outcomes) + 1
  {
    assert (outcomes + [false])[..|outcomes|] == outcomes;
  }

  ghost predicate MatchesHistory(cfg: Config, rec: Record, outcomes: seq<bool>) {
    match rec.state
    case Closed =>
      rec.failures == FailureSuffix(outcomes) < cfg.failureThreshold
      && rec.successes == 0 && rec.openedAt == None
    case HalfOpen =>
      (forall o | o in outcomes :: o)
      && rec.successes == |outcomes| < cfg.successThreshold && rec.openedAt.Some?
    case Open => rec.successes == 0 && rec.openedAt.Some?
  }

  lemma {:induction false} HistorySpecification(cfg: Config, ops: seq<Op>)
    requires cfg.failureThreshold >= 1 && cfg.successThreshold >= 1
    ensures MatchesHistory(cfg, Run(cfg, ops).rec, PhaseOutcomes(cfg, ops))
  {
    if ops != [] {
      HistorySpecification(cfg, Init(ops));
      FailureSuffixGrows(PhaseOutcomes(cfg, Init(ops)));
    }
  }

  /** The outcomes the failure count looks at: those recorded since the breaker last closed, trials aside. */
  ghost function CountedOutcomes(cfg: Config, ops: seq<Op>): seq<bool> {
    if ops == [] then []
    else
      var before := CountedOutcomes(cfg, Init(ops));
      if Run(cfg, Init(ops)).rec.state == HalfOpen then
        (if Run(cfg, ops).rec.state == Closed then [] else before)
      else if Last(ops).Succeed? then before + [true]
      else if Last(ops).Fail? then before + [false]
      else before
  }

  /** The time of the latest failure that opened the breaker or found its count full, since it last closed. */
  ghost function LatestStamp(cfg: Config, ops: seq<Op>): Option<real> {
    if ops == [] then None
    else
      var state := Run(cfg, Init(ops)).rec.state;
      if Last(ops).Fail?
         && (state == HalfOpen || FailureSuffix(CountedOutcomes(cfg, ops)) >= cfg.failureThreshold)
      then Some(Last(ops).at)
      else if state == HalfOpen && Run(cfg, ops).rec.state == Closed then None
      else LatestStamp(cfg, Init(ops))
  }

  /** In every state, OPEN included, the count is the trailing failures. */
  lemma {:induction false} CountSpecification(cfg: Config, ops: seq<Op>)
    ensures Run(cfg, ops).rec.failures == FailureSuffix(CountedOutcomes(cfg, ops))
  {
    if ops != [] {
      CountSpecification(cfg, Init(ops));
      FailureSuffixGrows(CountedOutcomes(cfg, Init(ops)));
      assert FailureSuffix([]) == 0;
      hide FailureSuffix;
    }
  }

  /** In every state the stamp is that of the latest failure that was due one. */
  lemma {:induction false} StampSpecification(cfg: Config, ops: seq<Op>)
    requires cfg.failureThreshold >= 1 && cfg.successThreshold >= 1
    ensures Run(cfg, ops).rec.openedAt == LatestStamp(cfg, ops)
  {
    if ops != [] {
      StampSpecification(cfg, Init(ops));
      HistorySpecification(cfg, Init(ops));
      CountSpecification(cfg, ops);
      hide CountedOutcomes, FailureSuffix;
    }
  }

  // ----- Trips -----

  ghost predicate Trips(cfg: Config, ops: seq<Op>)
    requires ops != []
  {
    Run(cfg, Init(ops)).rec.state != Open && Run(cfg, ops).rec.state == Open
  }

  /** The times at which OPEN was entered from another state. */
  ghost function Entries(cfg: Config, ops: seq<Op>): seq<real> {
    if ops == [] then []
    else Entries(cfg, Init(ops)) + (if Trips(cfg, ops) then [Last(ops).at] else [])
  }

  /**
   While OPEN the stamp lies between the entry and the clock, re-stamped or not;
   in any other state the clock is a whole timeout past the latest entry.
   */
  lemma {:induction false} StampAndClock(cfg: Config, ops: seq<Op>)
    requires Ordered(ops)
    requires cfg.failureThreshold >= 1 && cfg.successThreshold >= 1 && cfg.recoveryTimeout >= 0.0
    ensures var rec := Run(cfg, ops).rec;
            var entries := Entries(cfg, ops);
            if rec.state == Open then
              ops != [] && entries != [] && rec.openedAt.Some?
              && entries[|entries| - 1] <= rec.openedAt.value <= Last(ops).at
            else
              entries != [] ==>
                ops != [] && entries[|entries| - 1] + cfg.recoveryTimeout <= Last(ops).at
  {
    if ops != [] {
      var before := Init(ops);
      StampAndClock(cfg, before);
      HistorySpecification(cfg, before);
      if before != [] {
        assert Last(before).at <= Last(ops).at;
      }
    }
  }

  /** Entries into OPEN from another state are at least one timeout apart, pair by pair. */
  lemma {:induction false} TripSpacing(cfg: Config, ops: seq<Op>, i: nat, j: nat)
    requires Ordered(ops) && cfg.Sensible()
    requires i <= j < |Entries(cfg, ops)|
    ensures Entries(cfg, ops)[j] - Entries(cfg, ops)[i] >= Shares(cfg.recoveryTimeout, j - i)
    decreases |ops|
  {
    var before := Init(ops);
    if j < |Entries(cfg, before)| {
      TripSpacing(cfg, before, i, j);
    } else if i < j {
      StampAndClock(cfg, before);
      TripSpacing(cfg, before, i, j - 1);
      assert Last(before).at <= Last(ops).at;
    }
  }

  lemma {:induction false} EntriesWithinRun(cfg: Config, ops: seq<Op>, i: nat)
    requires Ordered(ops) && i < |Entries(cfg, ops)|
    ensures ops != [] && Entries(cfg, ops)[i] <= Last(ops).at
  {
    if i < |Entries(cfg, Init(ops))| {
      EntriesWithinRun(cfg, Init(ops), i);
    }
  }

  /** By the clock's reading T there have been at most 1 + floor((T - first) / timeout) trips. */
  lemma {:induction false} TripCount(cfg: Config, ops: seq<Op>)
    requires Ordered(ops) && cfg.Sensible() && Entries(cfg, ops) != []
    ensures |Entries(cfg, ops)|
         <= 1 + ((Last(ops).at - Entries(cfg, ops)[0]) / cfg.recoveryTimeout).Floor
  {
    var entries := Entries(cfg, ops);
    var n := |entries| - 1;
    TripSpacing(cfg, ops, 0, n);
    EntriesWithinRun(cfg, ops, n);
    var span := Last(ops).at - entries[0];
    SharesMultiply(cfg.recoveryTimeout, n);
    FloorOfQuotient(n, span, cfg.recoveryTimeout);
  }

  lemma {:induction false} RunAppend(cfg: Config, ops: seq<Op>, op: Op)
    ensures Run(cfg, ops + [op]) == Step(cfg, Run(cfg, ops), op)
  {
    assert Init(ops + [op]) == ops;
  }

  /**
   Let the last step of `ops` enter OPEN. Whatever late outcomes arrive before a
   timeout has passed since, the breaker stays OPEN and would admit no call.
   */
  lemma {:induction false} OpenAdmitsNothing(cfg: Config, ops: seq<Op>, more: seq<Op>)
    requires Ordered(ops + more) && cfg.Sensible()
    requires ops != [] && Trips(cfg, ops)
    requires forall op | op in more :: op.at < Last(ops).at + cfg.recoveryTimeout
    ensures Run(cfg, ops + more).rec.state == Open
    ensures Entries(cfg, ops + more) == Entries(cfg, ops)
    ensures forall at | (more == [] ==> at >= Last(ops).at) && (more != [] ==> at >= Last(more).at)
              && at < Last(ops).at + cfg.recoveryTimeout ::
              !Admits(cfg, Run(cfg, ops + more).rec, at)
  {
    var all := ops + more;
    if more == [] {
      assert all == ops;
    } else {
      assert Init(all) == ops + Init(more);
      OpenAdmitsNothing(cfg, ops, Init(more));
    }
    StampAndClock(cfg, all);
  }

  // ----- The exported counter -----

  /** Failures that reached an already OPEN breaker and stamped it again. */
  ghost function Restamps(cfg: Config, ops: seq<Op>): nat {
    if ops == [] then 0
    else
      var rec := Run(cfg, Init(ops)).rec;
      Restamps(cfg, Init(ops))
      + (if Last(ops).Fail? && rec.state == Open && rec.failures + 1 >= cfg.failureThreshold then 1 else 0)
  }

  /** The counter of transitions to OPEN counts exactly those only if no late failure re-stamped. */
  lemma {:induction false} OpenTotalExact(cfg: Config, ops: seq<Op>)
    ensures Run(cfg, ops).openTotal == |Entries(cfg, ops)| + Restamps(cfg, ops)
    ensures Run(cfg, ops).openTotal == |Entries(cfg, ops)| <==> Restamps(cfg, ops) == 0
  {
    if ops != [] {
      OpenTotalExact(cfg, Init(ops));
    }
  }

  /** Two overlapping calls failing against a threshold of one: one trip, counted twice. */
  lemma {:induction false} LateFailureCountedTwice(cfg: Config)
    requires cfg.failureThreshold == 1
    ensures var ops := [Enter(0.0), Enter(0.0), Fail(1.0), Fail(2.0)];
            Run(cfg, ops).openTotal == 2 && |Entries(cfg, ops)| == 1
  {
    var a := [Enter(0.0)];
    var b := a + [Enter(0.0)];
    var c := b + [Fail(1.0)];
    var d := c + [Fail(2.0)];
    assert d == [Enter(0.0), Enter(0.0), Fail(1.0), Fail(2.0)];
    assert Init(d) == c && Init(c) == b && Init(b) == a && Init(a) == [];
    assert Run(cfg, a) == FRESH_BREAKER;
    assert Run(cfg, b) == FRESH_BREAKER;
    assert Run(cfg, c).rec == Record(Open, 1, 0, Some(1.0)) && Run(cfg, c).openTotal == 1;
    assert Entries(cfg, a) == [];
    assert Entries(cfg, b) == [];
    assert Entries(cfg, c) == [1.0];
  }

  /** The failure counts of the events that report openings, oldest first. */
  function ReportedCounts(trail: seq<Transition>): seq<nat> {
    if trail == [] then []
    else
      var before := ReportedCounts(trail[..|trail| - 1]);
      match trail[|trail| - 1]
      case Opened(count) => before + [count]
      case _ => before
  }

  /** The trailing failures at each failure that opened the breaker or found its count full. */
  ghost function StampedCounts(cfg: Config, ops: seq<Op>): seq<nat> {
    if ops == [] then []
    else
      var before := StampedCounts(cfg, Init(ops));
      var count := FailureSuffix(CountedOutcomes(cfg, ops));
      if Last(ops).Fail? && (Run(cfg, Init(ops)).rec.state == HalfOpen || count >= cfg.failureThreshold)
      then before + [count] else before
  }

  lemma StepReports(cfg: Config, b: Breaker, op: Op)
    ensures var after := Step(cfg, b, op);
            ReportedCounts(after.trail)
            == ReportedCounts(b.trail)
               + (if op.Fail? && (b.rec.state == HalfOpen || after.rec.failures >= cfg.failureThreshold)
                  then [after.rec.failures] else [])
  {
    var (after, n) := (Step(cfg, b, op).trail, |b.trail|);
    if after != b.trail {
      assert after[..n] == b.trail;
    }
  }

  /** Every `opened` event carries the number of trailing failures at its time. */
  lemma {:induction false} OpeningsReportCounts(cfg: Config, ops: seq<Op>)
    ensures ReportedCounts(Run(cfg, ops).trail) == StampedCounts(cfg, ops)
  {
    if ops != [] {
      OpeningsReportCounts(cfg, Init(ops));
      CountSpecification(cfg, ops);
      StepReports(cfg, Run(cfg, Init(ops)), Last(ops));
      hide CountedOutcomes, FailureSuffix, Step, ReportedCounts;
    }
  }

  function Entrances(ops: seq<Op>): nat {
    if ops == [] then 0 else Entrances(Init(ops)) + (if Last(ops).Enter? then 1 else 0)
  }

  /** Every call that tried to enter was either let through or counted as rejected. */
  lemma {:induction false} EveryEntranceCounted(cfg: Config, ops: seq<Op>)
    ensures Admitted(cfg, ops) + Run(cfg, ops).rejections == Entrances(ops)
  {
    if ops != [] {
      EveryEntranceCounted(cfg, Init(ops));
    }
  }

  // ----- Protected calls, one at a time -----

  /** A call's entry time, how its body ended, and when. */
  datatype ProtectedCall = ProtectedCall(entered: real, outcome: Outcome, exited: real)

  function StepsOfCalls(calls: seq<ProtectedCall>): seq<Op> {
    if calls == [] then []
    else
      var call := calls[|calls| - 1];
      StepsOfCalls(calls[..|calls| - 1]) + [Enter(call.entered)] + [Exit(call.outcome, call.exited)]
  }

  /** Expected exceptions since the latest call that returned, other exceptions aside. */
  function ExceptionsInARow(calls: seq<ProtectedCall>): nat {
    if calls == [] then 0
    else
      var before := ExceptionsInARow(calls[..|calls| - 1]);
      match calls[|calls| - 1].outcome
      case Returned => 0
      case ExpectedException => before + 1
      case OtherException => before
  }

  ghost predicate NeverInARow(calls: seq<ProtectedCall>, limit: int) {
    ExceptionsInARow(calls) < limit && (calls != [] ==> NeverInARow(calls[..|calls| - 1], limit))
  }

  lemma CallAppended(cfg: Config, calls: seq<ProtectedCall>)
    requires calls != []
    ensures var (call, before) := (calls[|calls| - 1], Run(cfg, StepsOfCalls(calls[..|calls| - 1])));
            Run(cfg, StepsOfCalls(calls))
            == Step(cfg, Step(cfg, before, Enter(call.entered)), Exit(call.outcome, call.exited))
  {
    hide Run, Step, Exit;
    var call := calls[|calls| - 1];
    var before := StepsOfCalls(calls[..|calls| - 1]);
    RunAppend(cfg, before, Enter(call.entered));
    RunAppend(cfg, before + [Enter(call.entered)], Exit(call.outcome, call.exited));
  }

  /** Short of the threshold in a row a fresh breaker only counts the expected exceptions. */
  lemma {:induction false} ClosedWhileFewInARow(cfg: Config, calls: seq<ProtectedCall>)
    requires NeverInARow(calls, cfg.failureThreshold)
    ensures Run(cfg, StepsOfCalls(calls)) == Breaker(Record(Closed, ExceptionsInARow(calls), 0, None), 0, 0, [])
  {
    if calls != [] {
      ClosedWhileFewInARow(cfg, calls[..|calls| - 1]);
      CallAppended(cfg, calls);
      hide StepsOfCalls, Run;
    }
  }

  /** A call after which a fresh breaker has just seen the threshold in a row opens it, and no other does. */
  lemma {:induction false} OpensOnEnoughInARow(cfg: Config, calls: seq<ProtectedCall>)
    requires calls != [] && NeverInARow(calls[..|calls| - 1], cfg.failureThreshold)
    ensures var rec := Run(cfg, StepsOfCalls(calls)).rec;
            if ExceptionsInARow(calls) >= cfg.failureThreshold
            then rec == Record(Open, cfg.failureThreshold, 0, Some(calls[|calls| - 1].exited))
            else rec == Record(Closed, ExceptionsInARow(calls), 0, None)
  {
    hide StepsOfCalls, Run;
    ClosedWhileFewInARow(cfg, calls[..|calls| - 1]);
    CallAppended(cfg, calls);
  }

  // ----- Outages -----

  function Admitted(cfg: Config, ops: seq<Op>): nat {
    if ops == [] then 0
    else Admitted(cfg, Init(ops))
         + (if Last(ops).Enter? && Admits(cfg, Run(cfg, Init(ops)).rec, Last(ops).at) then 1 else 0)
  }

  /** Calls let through whose outcome is still to come. */
  function InFlight(cfg: Config, ops: seq<Op>): int {
    if ops == [] then 0
    else InFlight(cfg, Init(ops))
         + (if !Last(ops).Enter? then -1
            else if Admits(cfg, Run(cfg, Init(ops)).rec, Last(ops).at) then 1 else 0)
  }

  /** Outcomes belong to calls in flight, of which there are never more than `c`. */
  ghost predicate AtMostInFlight(cfg: Config, ops: seq<Op>, c: nat) {
    && 0 <= InFlight(cfg, ops) <= c
    && (ops != [] ==> AtMostInFlight(cfg, Init(ops), c))
  }

  ghost function Probes(cfg: Config, ops: seq<Op>): nat {
    if ops == [] then 0
    else Probes(cfg, Init(ops))
         + (if Run(cfg, Init(ops)).rec.state == Open && Run(cfg, ops).rec.state == HalfOpen then 1 else 0)
  }

  ghost predicate Outage(ops: seq<Op>, start: real) {
    forall op | op in ops :: (op.Enter? || op.Fail?) && op.at >= start
  }

  /** What `h` probing phases allow in all. */
  ghost function Allowance(cfg: Config, c: nat, h: nat): int {
    cfg.failureThreshold - 1 + c + Lots(c, h)
  }

  ghost predicate WithinAllowance(cfg: Config, ops: seq<Op>, c: nat, start: real) {
    var rec := Run(cfg, ops).rec;
    var a := Admitted(cfg, ops);
    var n := InFlight(cfg, ops);
    var h := Probes(cfg, ops);
    match rec.state
    case Closed => h == 0 && a == rec.failures + n && rec.failures < cfg.failureThreshold
    case Open =>
      a <= Allowance(cfg, c, h) && rec.openedAt.Some? && rec.openedAt.value >= start + Shares(cfg.recoveryTimeout, h)
    case HalfOpen =>
      h >= 1 && a <= Allowance(cfg, c, h - 1) + n && ops != [] && Last(ops).at >= start + Shares(cfg.recoveryTimeout, h)
  }

  /** A probing phase admits only calls that are still in flight when its first failure ends it. */
  lemma WithinAllowanceEnter(cfg: Config, ops: seq<Op>, c: nat, start: real)
    requires cfg.Sensible() && ops != [] && Last(ops).Enter?
    requires WithinAllowance(cfg, Init(ops), c, start)
    requires 0 <= InFlight(cfg, Init(ops))
    requires Init(ops) != [] ==> Last(Init(ops)).at <= Last(ops).at
    ensures WithinAllowance(cfg, ops, c, start)
  {
  }

  lemma WithinAllowanceFail(cfg: Config, ops: seq<Op>, c: nat, start: real)
    requires cfg.Sensible() && ops != [] && Last(ops).Fail?
    requires WithinAllowance(cfg, Init(ops), c, start)
    requires InFlight(cfg, Init(ops)) <= c && 0 <= InFlight(cfg, ops)
    requires start <= Last(ops).at && (Init(ops) != [] ==> Last(Init(ops)).at <= Last(ops).at)
    requires var rec := Run(cfg, Init(ops)).rec;
             rec.state == Open ==> rec.openedAt.Some? && rec.openedAt.value <= Last(ops).at
    ensures WithinAllowance(cfg, ops, c, start)
  {
  }

  lemma {:induction false} OutageInvariant(cfg: Config, ops: seq<Op>, c: nat, start: real)
    requires Ordered(ops) && cfg.Sensible() && Outage(ops, start) && AtMostInFlight(cfg, ops, c)
    ensures WithinAllowance(cfg, ops, c, start)
  {
    if ops != [] {
      var before := Init(ops);
      OutageInvariant(cfg, before, c, start);
      StampAndClock(cfg, before);
      assert Last(ops) in ops;
      if before != [] {
        assert Last(before).at <= Last(ops).at;
      }
      hide WithinAllowance, Admits;
      if Last(ops).Enter? {
        WithinAllowanceEnter(cfg, ops, c, start);
      } else {
        WithinAllowanceFail(cfg, ops, c, start);
      }
    }
  }

  /** In every state: no more than the probes so far allow, and no more probes than timeouts. */
  lemma AdmittedWithin(cfg: Config, ops: seq<Op>, c: nat, start: real)
    requires Ordered(ops) && cfg.Sensible() && Outage(ops, start) && AtMostInFlight(cfg, ops, c)
    requires ops != []
    ensures Admitted(cfg, ops) <= cfg.failureThreshold - 1 + c + Lots(c, Probes(cfg, ops))
    ensures start + Shares(cfg.recoveryTimeout, Probes(cfg, ops)) <= Last(ops).at
  {
    OutageInvariant(cfg, ops, c, start);
    StampAndClock(cfg, ops);
    assert Last(ops) in ops;
  }

  /**
   During an outage a breaker started fresh at `start` has by time T let through at
   most (F - 1 + c) + c * floor((T - start) / R) calls, for every interleaving of at
   most `c` overlapping ones.
   */
  lemma {:induction false} OutageBound(cfg: Config, ops: seq<Op>, c: nat, start: real)
    requires Ordered(ops) && cfg.Sensible() && Outage(ops, start) && AtMostInFlight(cfg, ops, c)
    requires ops != []
    ensures Admitted(cfg, ops)
         <= (cfg.failureThreshold - 1 + c) + c * ((Last(ops).at - start) / cfg.recoveryTimeout).Floor
  {
    hide Admitted, Probes, AtMostInFlight, Outage, Ordered, Lots, Shares;
    AdmittedWithin(cfg, ops, c, start);
    LotsWithin(c, Probes(cfg, ops), Last(ops).at - start, cfg.recoveryTimeout);
  }

  // ----- Recovery -----

  /** Calls made one at a time, each let in at `.0` and succeeding at `.1`. */
  function Sequential(calls: seq<(real, real)>): seq<Op> {
    if calls == [] then []
    else
      var n := |calls| - 1;
      Sequential(calls[..n]) + [Enter(calls[n].0), Succeed(calls[n].1)]
  }

  /** Successes that still separate a record from the initial one. */
  function SuccessesNeeded(cfg: Config, rec: Record): int {
    match rec.state
    case Closed => 1
    case HalfOpen => cfg.successThreshold - rec.successes
    case Open => cfg.successThreshold
  }

  /** One successful call: admitted, and one success nearer to the initial record. */
  lemma SuccessfulCall(cfg: Config, b: Breaker, outcomes: seq<bool>, at: real)
    requires cfg.Sensible() && MatchesHistory(cfg, b.rec, outcomes) && Admits(cfg, b.rec, at)
    ensures var after := Succeeded(cfg, Entered(cfg, b, at));
            && after.rejections == b.rejections
            && if SuccessesNeeded(cfg, b.rec) <= 1 then after.rec == FRESH_RECORD
               else after.rec.state == HalfOpen
                    && SuccessesNeeded(cfg, after.rec) == SuccessesNeeded(cfg, b.rec) - 1
  {
  }

  /**
   From every reachable state, whatever was cancelled on the way, successful calls
   made after the timeout are never rejected and restore the initial record after
   exactly as many as are still needed: never more than the success threshold.
   */
  lemma {:induction false} Recovery(cfg: Config, ops: seq<Op>, calls: seq<(real, real)>)
    requires cfg.Sensible()
    requires var rec := Run(cfg, ops).rec;
             rec.state == Open ==>
               forall call | call in calls :: call.0 - rec.openedAt.GetOr(0.0) >= cfg.recoveryTimeout
    ensures var before := Run(cfg, ops);
            var after := Run(cfg, ops + Sequential(calls));
            && after.rejections == before.rejections
            && 1 <= SuccessesNeeded(cfg, before.rec) <= cfg.successThreshold
            && if |calls| >= SuccessesNeeded(cfg, before.rec) then after.rec == FRESH_RECORD
               else if calls == [] then after.rec == before.rec
               else after.rec.state == HalfOpen
                    && SuccessesNeeded(cfg, after.rec) == SuccessesNeeded(cfg, before.rec) - |calls|
  {
    HistorySpecification(cfg, ops);
    if calls == [] {
      assert ops + Sequential(calls) == ops;
    } else {
      var n := |calls| - 1;
      var earlier := ops + Sequential(calls[..n]);
      Recovery(cfg, ops, calls[..n]);
      assert calls[n] in calls;
      var entered := earlier + [Enter(calls[n].0)];
      assert ops + Sequential(calls) == entered + [Succeed(calls[n].1)];
      RunAppend(cfg, earlier, Enter(calls[n].0));
      RunAppend(cfg, entered, Succeed(calls[n].1));
      HistorySpecification(cfg, earlier);
      SuccessfulCall(cfg, Run(cfg, earlier), PhaseOutcomes(cfg, earlier), calls[n].0);
      hide Run, Sequential, Entered, Succeeded;
    }
  }

  // ----- The trail of events -----

  /** The state a reader of the events concludes: that of the latest one. */
  function Replay(trail: seq<Transition>): State {
    if trail == [] then Closed
    else
      match trail[|trail| - 1]
      case Opened(_) => Open
      case HalfOpened => HalfOpen
      case Reclosed => Closed
  }

  ghost predicate MayFollow(first: Transition, next: Transition) {
    match first
    case Opened(_) => next.Opened? || next.HalfOpened?
    case HalfOpened => next.Opened? || next.Reclosed?
    case Reclosed => next.Opened?
  }

  ghost predicate LegalTrail(trail: seq<Transition>) {
    && (trail != [] ==> trail[0].Opened?)
    && forall i | 0 <= i < |trail| - 1 :: MayFollow(trail[i], trail[i + 1])
  }

  function Openings(trail: seq<Transition>): nat {
    if trail == [] then 0
    else Openings(trail[..|trail| - 1]) + (if trail[|trail| - 1].Opened? then 1 else 0)
  }

  /** The events determine the state and the counter, and come in a legal order. */
  lemma {:induction false} TrailReplays(cfg: Config, ops: seq<Op>)
    ensures var b := Run(cfg, ops);
            Replay(b.trail) == b.rec.state && Openings(b.trail) == b.openTotal && LegalTrail(b.trail)
  {
    if ops != [] {
      TrailReplays(cfg, Init(ops));
      var before := Run(cfg, Init(ops)).trail;
      var after := Run(cfg, ops).trail;
      if after != before {
        assert after[..|after| - 1] == before;
      }
    }
  }
}

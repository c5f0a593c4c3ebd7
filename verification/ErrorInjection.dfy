/**
 The evenly spread error decision: an accumulator gains the error rate at every
 decision and spills an error whenever it reaches one.
 */
module ErrorInjection {
  import opened Numbers

  datatype Injector = Injector(enabled: bool, rate: real, accumulator: real) {
    predicate Active() {
      enabled && rate > 0.0
    }

    /** What the control plane leaves: a rate between 0 and 1, zero unless enabled, and a fraction. */
    ghost predicate Valid() {
      0.0 <= rate <= 1.0 && 0.0 <= accumulator < 1.0 && (!enabled ==> rate == 0.0)
    }
  }

  predicate Injects(i: Injector) {
    i.Active() && i.accumulator + i.rate >= 1.0
  }

  function Decided(i: Injector): Injector {
    if !i.Active() then i
    else i.(accumulator := i.accumulator + i.rate - (if Injects(i) then 1.0 else 0.0))
  }

  function Configured(enable: bool, ratePercent: real): Injector {
    Injector(enable, if enable then ratePercent / 100.0 else 0.0, 0.0)
  }

  const RESET_INJECTOR := Injector(false, 0.0, 0.0)

  /** The control- and data-plane steps that touch the injector. */
  datatype Step = Decide | Configure(enable: bool, ratePercent: real) | Reset

  function Next(i: Injector, step: Step): Injector {
    match step
    case Decide => Decided(i)
    case Configure(enable, percent) => Configured(enable, percent)
    case Reset => RESET_INJECTOR
  }

  /** Every percentage the endpoint accepts keeps the injector valid at every step. */
  lemma StaysValid(i: Injector, step: Step)
    requires i.Valid()
    requires step.Configure? ==> 0.0 <= step.ratePercent <= 100.0
    ensures Next(i, step).Valid()
  {
    if step.Configure? {
      assert 0.0 <= step.ratePercent / 100.0 <= 1.0;
    }
  }

  /** n decisions in a row. */
  function After(i: Injector, n: nat): Injector {
    if n == 0 then i else Decided(After(i, n - 1))
  }

  /** Whether the decision after the first n injects. */
  predicate InjectsAt(i: Injector, n: nat) {
    Injects(After(i, n))
  }

  /** Errors among the first n decisions. */
  function Errors(i: Injector, n: nat): nat {
    if n == 0 then 0 else Errors(i, n - 1) + (if InjectsAt(i, n - 1) then 1 else 0)
  }

  lemma {:induction false} AfterAdds(i: Injector, m: nat, n: nat)
    ensures After(After(i, m), n) == After(i, m + n)
    ensures Errors(i, m) + Errors(After(i, m), n) == Errors(i, m + n)
  {
    if n > 0 {
      AfterAdds(i, m, n - 1);
    }
  }

  /** What n decisions add to the accumulator. */
  function Gained(i: Injector, n: nat): real {
    n as real * i.rate
  }

  lemma GainedNext(i: Injector, n: nat)
    ensures Gained(i, 0) == 0.0
    ensures Gained(i, n + 1) == Gained(i, n) + i.rate
  {
  }

  lemma SameRateSameGain(i: Injector, j: Injector, n: nat)
    requires i.rate == j.rate
    ensures Gained(i, n) == Gained(j, n)
  {
  }

  /** What was gained is what was injected plus what is left over. */
  lemma {:induction false} Conservation(i: Injector, n: nat)
    requires i.Valid()
    ensures After(i, n).Valid() && After(i, n) == i.(accumulator := After(i, n).accumulator)
    ensures Errors(i, n) as real + After(i, n).accumulator == i.accumulator + Gained(i, n)
  {
    hide Gained;
    if n == 0 {
      GainedNext(i, n);
    } else {
      Conservation(i, n - 1);
      GainedNext(i, n - 1);
    }
  }

  /** From any fraction, n decisions inject the whole part of what was there and gained. */
  lemma ErrorsAreFloor(i: Injector, n: nat)
    requires i.Valid()
    ensures Errors(i, n) == (i.accumulator + Gained(i, n)).Floor
  {
    hide Gained;
    Conservation(i, n);
  }

  lemma FloorOfShifted(fraction: real, x: real)
    requires 0.0 <= fraction < 1.0
    ensures (fraction + x).Floor == x.Floor || (fraction + x).Floor == Ceil(x)
  {
    var f := x.Floor;
    if (fraction + x).Floor != f {
      assert f as real < x;
      assert Ceil(x) == f + 1;
    }
  }

  /** Any k consecutive decisions inject floor(k*r) or ceil(k*r) errors, wherever they start. */
  lemma EvenSpread(i: Injector, start: nat, k: nat)
    requires i.Valid()
    ensures var injected := Errors(i, start + k) - Errors(i, start);
            injected == Gained(i, k).Floor || injected == Ceil(Gained(i, k))
  {
    hide Gained;
    var from := After(i, start);
    Conservation(i, start);
    SameRateSameGain(i, from, k);
    AfterAdds(i, start, k);
    ErrorsAreFloor(from, k);
    FloorOfShifted(from.accumulator, Gained(i, k));
  }

  lemma WholePeriod(i: Injector, p: nat, q: nat)
    requires q > 0 && i.rate == p as real / q as real
    ensures Gained(i, q) == p as real
  {
  }

  /** At the rational rate p/q every q decisions inject exactly p errors and the pattern repeats. */
  lemma Periodic(i: Injector, n: nat, p: nat, q: nat)
    requires i.Valid() && q > 0 && i.rate == p as real / q as real
    ensures Errors(i, n + q) - Errors(i, n) == p
    ensures InjectsAt(i, n + q) == InjectsAt(i, n)
  {
    hide Gained;
    var at := After(i, n);
    Conservation(i, n);
    AfterAdds(i, n, q);
    WholePeriod(at, p, q);
    ErrorsAreFloor(at, q);
    assert (at.accumulator + p as real).Floor == p;
    Conservation(at, q);
    assert After(at, q) == at;
  }

  /** Since the rate was last set, exactly the whole part of decisions times rate was injected. */
  lemma ErrorsSinceConfigured(ratePercent: real, n: nat)
    requires 0.0 <= ratePercent <= 100.0
    ensures Errors(Configured(true, ratePercent), n) == (n as real * (ratePercent / 100.0)).Floor
  {
    ErrorsAreFloor(Configured(true, ratePercent), n);
  }

  /** A disabled injector never injects, whatever rate and fraction it carries. */
  lemma {:induction false} DisabledNeverInjects(i: Injector, n: nat)
    requires !i.enabled
    ensures After(i, n) == i && Errors(i, n) == 0
  {
    if n > 0 {
      DisabledNeverInjects(i, n - 1);
    }
  }

  // ----- Whole runs -----

  function Run(steps: seq<Step>): Injector {
    if steps == [] then Injector(false, 0.0, 0.0)
    else Next(Run(steps[..|steps| - 1]), steps[|steps| - 1])
  }

  /** The percentage in force: the one last enabled, and zero once disabled or reset. */
  function PercentInForce(steps: seq<Step>): real {
    if steps == [] then 0.0
    else
      match steps[|steps| - 1]
      case Decide => PercentInForce(steps[..|steps| - 1])
      case Configure(true, percent) => percent
      case Configure(false, _) => 0.0
      case Reset => 0.0
  }

  /** Decisions made since the last control step. */
  function DecisionsSince(steps: seq<Step>): nat {
    if steps == [] || !steps[|steps| - 1].Decide? then 0 else DecisionsSince(steps[..|steps| - 1]) + 1
  }

  /** Errors injected since the last control step. */
  function ErrorsSince(steps: seq<Step>): nat {
    if steps == [] || !steps[|steps| - 1].Decide? then 0
    else
      var before := steps[..|steps| - 1];
      ErrorsSince(before) + (if Injects(Run(before)) then 1 else 0)
  }

  ghost predicate Acceptable(steps: seq<Step>) {
    forall step | step in steps && step.Configure? :: 0.0 <= step.ratePercent <= 100.0
  }

  lemma {:induction false} RunConserves(steps: seq<Step>)
    requires Acceptable(steps)
    ensures var i := Run(steps);
            && i.Valid() && i.rate == PercentInForce(steps) / 100.0
            && Shares(PercentInForce(steps) / 100.0, DecisionsSince(steps))
               == ErrorsSince(steps) as real + i.accumulator
  {
    if steps != [] {
      var (before, last) := (steps[..|steps| - 1], steps[|steps| - 1]);
      assert last in steps;
      RunConserves(before);
      StaysValid(Run(before), last);
    }
  }

  /** A run switched off by a disabling or a reset injects nothing until it is enabled again. */
  lemma {:induction false} NoneWhileOff(steps: seq<Step>)
    requires Acceptable(steps) && PercentInForce(steps) == 0.0
    ensures ErrorsSince(steps) == 0 && !Injects(Run(steps))
  {
    RunConserves(steps);
    hide Next;
    if steps != [] && steps[|steps| - 1].Decide? {
      NoneWhileOff(steps[..|steps| - 1]);
    }
  }

  /**
   At every moment of every run of decisions, settings and resets, the errors injected since
   the last control step are the whole part of the decisions times the rate in force.
   */
  lemma {:induction false} ErrorsOverRuns(steps: seq<Step>)
    requires Acceptable(steps)
    ensures ErrorsSince(steps) == (DecisionsSince(steps) as real * (PercentInForce(steps) / 100.0)).Floor
  {
    var rate := PercentInForce(steps) / 100.0;
    var decisions := DecisionsSince(steps);
    RunConserves(steps);
    hide Run, PercentInForce, DecisionsSince, ErrorsSince, Acceptable;
    assert Shares(rate, decisions).Floor == ErrorsSince(steps);
    SharesMultiply(rate, decisions);
  }
}

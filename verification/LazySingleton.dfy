/**
 Double-checked creation of a process-wide instance: any number of threads, each going
 through an unlocked test, the lock, a second test, construction and return.
 */
module LazySingleton {
  import opened Options

  /** Where a thread is; a thread that has returned keeps what it returned. */
  datatype Place =
    | Testing
    | Locking
    | Retesting
    | Constructing
    | Assigning(built: nat)
    | Unlocking
    | Returning
    | Returned(result: Option<nat>)

  /** `instance` is the global; `owner` the thread that holds the lock; `built` counts constructions. */
  datatype State = State(instance: Option<nat>, owner: Option<nat>, built: nat, places: seq<Place>)

  function Initial(threads: nat): State {
    State(None, None, 0, seq(threads, i => Testing))
  }

  function At(s: State, thread: nat, place: Place): State
    requires thread < |s.places|
  {
    s.(places := s.places[thread := place])
  }

  /** One atomic step of one thread; a thread waiting for the lock or done stays put. */
  function Step(s: State, thread: nat): (after: State)
    ensures |after.places| == |s.places|
  {
    if thread >= |s.places| then s
    else
      match s.places[thread]
      case Testing => At(s, thread, if s.instance == None then Locking else Returning)
      case Locking => if s.owner == None then At(s, thread, Retesting).(owner := Some(thread)) else s
      case Retesting => At(s, thread, if s.instance == None then Constructing else Unlocking)
      case Constructing => At(s, thread, Assigning(s.built)).(built := s.built + 1)
      case Assigning(built) => At(s, thread, Unlocking).(instance := Some(built))
      case Unlocking => At(s, thread, Returning).(owner := None)
      case Returning => At(s, thread, Returned(s.instance))
      case Returned(_) => s
  }

  function Run(threads: nat, schedule: seq<nat>): (s: State)
    ensures |s.places| == threads
  {
    if schedule == [] then Initial(threads)
    else Step(Run(threads, schedule[..|schedule| - 1]), schedule[|schedule| - 1])
  }

  ghost predicate HoldsLock(p: Place) {
    p.Retesting? || p.Constructing? || p.Assigning? || p.Unlocking?
  }

  ghost predicate Inv(s: State) {
    && (forall i | 0 <= i < |s.places| :: HoldsLock(s.places[i]) <==> s.owner == Some(i))
    && (s.owner.Some? ==> s.owner.value < |s.places|)
    && (s.instance.Some? ==> s.instance == Some(0) && s.built == 1)
    && (s.instance == None ==>
          s.built == if s.owner.Some? && s.places[s.owner.value].Assigning? then 1 else 0)
    && (forall i | 0 <= i < |s.places| ::
          && (s.places[i].Constructing? ==> s.instance == None)
          && (s.places[i].Assigning? ==> s.instance == None && s.places[i].built == 0)
          && (s.places[i].Unlocking? || s.places[i].Returning? ==> s.instance.Some?)
          && (s.places[i].Returned? ==> s.instance.Some? && s.places[i].result == s.instance))
  }

  lemma StepKeepsInv(s: State, thread: nat)
    requires Inv(s)
    ensures Inv(Step(s, thread))
  {
  }

  lemma {:induction false} InvHolds(threads: nat, schedule: seq<nat>)
    ensures Inv(Run(threads, schedule))
  {
    hide Step;
    if schedule != [] {
      InvHolds(threads, schedule[..|schedule| - 1]);
      StepKeepsInv(Run(threads, schedule[..|schedule| - 1]), schedule[|schedule| - 1]);
    }
  }

  /** Under every schedule at most one instance is built, and all who return got that one. */
  lemma {:induction false} OneInstance(threads: nat, schedule: seq<nat>)
    ensures var s := Run(threads, schedule);
            && s.built <= 1
            && forall i | 0 <= i < |s.places| && s.places[i].Returned? ::
                 s.built == 1 && s.places[i].result.Some? && s.places[i].result == s.instance
  {
    InvHolds(threads, schedule);
  }

  /** The lock wedges nobody: while a thread has not returned, some thread can take a step. */
  lemma {:induction false} NeverStuck(threads: nat, schedule: seq<nat>)
    ensures var s := Run(threads, schedule);
            (exists i | 0 <= i < |s.places| :: !s.places[i].Returned?)
            ==> exists i: nat | i < |s.places| :: Step(s, i) != s
  {
    InvHolds(threads, schedule);
    var s := Run(threads, schedule);
    if i :| 0 <= i < |s.places| && !s.places[i].Returned? {
      var next := if s.places[i].Locking? && s.owner.Some? then s.owner.value else i;
      assert Step(s, next).places[next] != s.places[next];
    }
  }

  // ----- Everyone returns -----

  /** The steps a thread has left at most. */
  function Left(p: Place): nat {
    match p
    case Testing => 7
    case Locking => 6
    case Retesting => 5
    case Constructing => 4
    case Assigning(_) => 3
    case Unlocking => 2
    case Returning => 1
    case Returned(_) => 0
  }

  function Work(places: seq<Place>): nat {
    if places == [] then 0 else Left(places[0]) + Work(places[1..])
  }

  lemma {:induction false} WorkUpdate(places: seq<Place>, i: nat, p: Place)
    requires i < |places|
    ensures Work(places[i := p]) == Work(places) - Left(places[i]) + Left(p)
  {
    var after := places[i := p];
    if i == 0 {
      assert after[1..] == places[1..];
    } else {
      WorkUpdate(places[1..], i - 1, p);
      assert after[1..] == places[1..][i - 1 := p];
    }
  }

  lemma {:induction false} InitialWork(threads: nat)
    ensures Work(Initial(threads).places) == 7 * threads
  {
    if threads > 0 {
      InitialWork(threads - 1);
      assert Initial(threads).places[1..] == Initial(threads - 1).places;
    }
  }

  lemma {:induction false} NoWorkLeft(places: seq<Place>)
    ensures Work(places) == 0 <==> forall i | 0 <= i < |places| :: places[i].Returned?
  {
    if places != [] {
      NoWorkLeft(places[1..]);
      assert forall i | 1 <= i < |places| :: places[i] == places[1..][i - 1];
    }
  }

  /** A step that changes anything leaves less work. */
  lemma {:induction false} StepWorks(s: State, thread: nat)
    ensures Step(s, thread) == s || Work(Step(s, thread).places) < Work(s.places)
  {
    var after := Step(s, thread);
    if after != s {
      WorkUpdate(s.places, thread, after.places[thread]);
      assert after.places == s.places[thread := after.places[thread]];
    }
  }

  /** The steps of a schedule that changed the state: what a thread did while not waiting. */
  function Moves(threads: nat, schedule: seq<nat>): nat {
    if schedule == [] then 0
    else
      var before := schedule[..|schedule| - 1];
      Moves(threads, before) + if Run(threads, schedule) == Run(threads, before) then 0 else 1
  }

  /** No schedule, however long, moves more than seven times a thread. */
  lemma {:induction false} MovesBounded(threads: nat, schedule: seq<nat>)
    ensures Moves(threads, schedule) + Work(Run(threads, schedule).places) <= 7 * threads
  {
    hide Step, Work;
    if schedule == [] {
      InitialWork(threads);
    } else {
      var before := schedule[..|schedule| - 1];
      MovesBounded(threads, before);
      StepWorks(Run(threads, before), schedule[|schedule| - 1]);
    }
  }

  /** All have returned the same instance, the only one built. */
  ghost predicate Finished(s: State) {
    && (forall i | 0 <= i < |s.places| :: s.places[i] == Returned(Some(0)))
    && (|s.places| > 0 ==> s.built == 1 && s.instance == Some(0) && s.owner == None)
  }

  /** Nobody can move exactly when everybody has returned. */
  lemma {:induction false} StillIffFinished(threads: nat, schedule: seq<nat>)
    ensures var s := Run(threads, schedule);
            (forall i: nat | i < threads :: Step(s, i) == s) <==> Finished(s)
  {
    InvHolds(threads, schedule);
    var s := Run(threads, schedule);
    if forall i: nat | i < threads :: Step(s, i) == s {
      NeverStuck(threads, schedule);
      assert forall i | 0 <= i < threads :: s.places[i].Returned?;
      assert threads > 0 ==> s.places[0].Returned?;
    }
  }

  lemma RunAppend(threads: nat, schedule: seq<nat>, thread: nat)
    ensures Run(threads, schedule + [thread]) == Step(Run(threads, schedule), thread)
  {
    assert (schedule + [thread])[..|schedule|] == schedule;
  }

  /** Every schedule extends, by at most seven steps a thread, to one in which all have returned. */
  lemma {:induction false} Completes(threads: nat, schedule: seq<nat>) returns (more: seq<nat>)
    ensures |more| <= Work(Run(threads, schedule).places) <= 7 * threads
    ensures Finished(Run(threads, schedule + more))
    decreases Work(Run(threads, schedule).places)
  {
    hide Step, Run, Work, Finished;
    MovesBounded(threads, schedule);
    StillIffFinished(threads, schedule);
    var s := Run(threads, schedule);
    if i: nat :| i < threads && Step(s, i) != s {
      StepWorks(s, i);
      RunAppend(threads, schedule, i);
      var rest := Completes(threads, schedule + [i]);
      more := [i] + rest;
      assert schedule + more == schedule + [i] + rest;
    } else {
      more := [];
      assert schedule + more == schedule;
    }
  }

  function Flat(rounds: seq<seq<nat>>): seq<nat> {
    if rounds == [] then [] else Flat(rounds[..|rounds| - 1]) + rounds[|rounds| - 1]
  }

  /** Either no step of the stretch could move, or work was done in it. */
  lemma {:induction false} StretchWorks(threads: nat, schedule: seq<nat>, stretch: seq<nat>)
    ensures var (before, after) := (Run(threads, schedule), Run(threads, schedule + stretch));
            || (before == after && forall i | i in stretch :: Step(before, i) == before)
            || Work(after.places) < Work(before.places)
  {
    hide Step, Run, Work;
    if stretch == [] {
      assert schedule + stretch == schedule;
    } else {
      var (less, last) := (stretch[..|stretch| - 1], stretch[|stretch| - 1]);
      StretchWorks(threads, schedule, less);
      StepWorks(Run(threads, schedule + less), last);
      RunAppend(threads, schedule + less, last);
      assert schedule + less + [last] == schedule + stretch;
      assert stretch == less + [last];
    }
  }

  ghost predicate EveryThread(threads: nat, round: seq<nat>) {
    forall i: nat | i < threads :: i in round
  }

  /** Fair scheduling ends: after seven rounds a thread, each with every thread in it, all have returned. */
  lemma {:induction false} FairRunsFinish(threads: nat, rounds: seq<seq<nat>>)
    requires |rounds| >= 7 * threads && forall k | 0 <= k < |rounds| :: EveryThread(threads, rounds[k])
    ensures Finished(Run(threads, Flat(rounds)))
  {
    RoundsWork(threads, rounds);
    NoWorkLeft(Run(threads, Flat(rounds)).places);
    StillIffFinished(threads, Flat(rounds));
  }

  lemma {:induction false} RoundsWork(threads: nat, rounds: seq<seq<nat>>)
    requires forall k | 0 <= k < |rounds| :: EveryThread(threads, rounds[k])
    ensures var s := Run(threads, Flat(rounds));
            Work(s.places) == 0 || Work(s.places) + |rounds| <= 7 * threads
  {
    hide Work;
    if rounds == [] {
      InitialWork(threads);
    } else {
      var (less, round) := (rounds[..|rounds| - 1], rounds[|rounds| - 1]);
      RoundsWork(threads, less);
      RoundWorks(threads, Flat(less), round);
    }
  }

  lemma {:induction false} RoundWorks(threads: nat, schedule: seq<nat>, round: seq<nat>)
    requires EveryThread(threads, round)
    ensures var (before, after) := (Run(threads, schedule), Run(threads, schedule + round));
            Work(after.places) < Work(before.places) || (before == after && Work(before.places) == 0)
  {
    hide Step, Run, Work;
    StretchWorks(threads, schedule, round);
    StillIffFinished(threads, schedule);
    NoWorkLeft(Run(threads, schedule).places);
  }

  ghost predicate Unhindered(s: State, thread: nat) {
    s.owner == None || s.owner == Some(thread)
  }

  /** From any reachable state a thread no other keeps from the lock returns in seven steps of its own. */
  lemma {:induction false} AloneReturns(threads: nat, schedule: seq<nat>, thread: nat)
    requires thread < threads && Unhindered(Run(threads, schedule), thread)
    ensures Run(threads, schedule + seq(7, _ => thread)).places[thread] == Returned(Some(0))
  {
    hide Step, Run, Unhindered;
    AloneWorks(threads, schedule, thread, 7);
    InvHolds(threads, schedule + seq(7, _ => thread));
  }

  lemma UnhinderedStep(s: State, thread: nat)
    requires Inv(s) && thread < |s.places| && Unhindered(s, thread)
    ensures Unhindered(Step(s, thread), thread)
    ensures var after := Step(s, thread).places[thread];
            Left(after) < Left(s.places[thread]) || Left(after) == 0
  {
  }

  lemma {:induction false} AloneWorks(threads: nat, schedule: seq<nat>, thread: nat, n: nat)
    requires thread < threads && Unhindered(Run(threads, schedule), thread)
    ensures var s := Run(threads, schedule + seq(n, _ => thread));
            Unhindered(s, thread) && Left(s.places[thread]) <= if n < 7 then 7 - n else 0
  {
    hide Step, Run, Unhindered, Inv;
    var longer := schedule + seq(n, _ => thread);
    if n == 0 {
      assert longer == schedule;
    } else {
      var before := schedule + seq(n - 1, _ => thread);
      AloneWorks(threads, schedule, thread, n - 1);
      assert longer == before + [thread];
      RunAppend(threads, before, thread);
      InvHolds(threads, before);
      UnhinderedStep(Run(threads, before), thread);
    }
  }

  /** Once there is an instance a new caller is done in two steps, whoever holds the lock. */
  lemma {:induction false} FastPath(threads: nat, schedule: seq<nat>, thread: nat)
    requires thread < threads && Run(threads, schedule).places[thread] == Testing
    requires Run(threads, schedule).instance != None
    ensures var s := Run(threads, schedule);
            Run(threads, schedule + [thread, thread]) == s.(places := s.places[thread := Returned(Some(0))])
  {
    InvHolds(threads, schedule);
    RunAppend(threads, schedule, thread);
    RunAppend(threads, schedule + [thread], thread);
    assert schedule + [thread] + [thread] == schedule + [thread, thread];
  }
}

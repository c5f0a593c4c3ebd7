/**
 The circuit breaker: its stored record, the effect of each of its atomic
 operations, and the classes that carry those operations out behind a
 load/save store.
 */
module CircuitBreaking {
  import opened Options

  datatype State = Closed | Open | HalfOpen

  /** The gauge exported for each state. */
  function GaugeOf(state: State): int {
    match state
    case Closed => 0
    case Open => 1
    case HalfOpen => 2
  }

  datatype Record = Record(state: State, failures: nat, successes: nat, openedAt: Option<real>)

  const FRESH_RECORD := Record(Closed, 0, 0, None)

  datatype Config = Config(failureThreshold: int, recoveryTimeout: real, successThreshold: int) {
    /** What the services configure: both thresholds at least one, a positive timeout. */
    ghost predicate Sensible() {
      failureThreshold >= 1 && successThreshold >= 1 && recoveryTimeout > 0.0
    }
  }

  /** The events a breaker persists; `opened` carries the failure count. */
  datatype Transition = Opened(failureCount: nat) | HalfOpened | Reclosed

  /** A breaker with its two counters and the events it has emitted. */
  datatype Breaker = Breaker(rec: Record, openTotal: nat, rejections: nat, trail: seq<Transition>)

  const FRESH_BREAKER := Breaker(FRESH_RECORD, 0, 0, [])

  /** The atomic steps of a protected call. A cancelled call records no outcome. */
  datatype Op =
    | Enter(at: real)
    | Succeed(at: real)
    | Fail(at: real)
    | Cancel(at: real)

  predicate Admits(cfg: Config, rec: Record, now: real) {
    rec.state != Open || now - rec.openedAt.GetOr(0.0) >= cfg.recoveryTimeout
  }

  function Entered(cfg: Config, b: Breaker, now: real): Breaker {
    if !Admits(cfg, b.rec, now) then b.(rejections := b.rejections + 1)
    else if b.rec.state == Open then
      b.(rec := b.rec.(state := HalfOpen, successes := 0), trail := b.trail + [HalfOpened])
    else b
  }

  function Succeeded(cfg: Config, b: Breaker): Breaker {
    if b.rec.state != HalfOpen then b.(rec := b.rec.(failures := 0))
    else if b.rec.successes + 1 >= cfg.successThreshold then
      b.(rec := FRESH_RECORD, trail := b.trail + [Reclosed])
    else b.(rec := b.rec.(successes := b.rec.successes + 1))
  }

  function Failed(cfg: Config, b: Breaker, now: real): Breaker {
    if b.rec.state == HalfOpen then
      b.(rec := b.rec.(state := Open, successes := 0, openedAt := Some(now)),
         openTotal := b.openTotal + 1, trail := b.trail + [Opened(b.rec.failures)])
    else
      var count := b.rec.failures + 1;
      if count >= cfg.failureThreshold then
        b.(rec := b.rec.(state := Open, failures := count, openedAt := Some(now)),
           openTotal := b.openTotal + 1, trail := b.trail + [Opened(count)])
      else b.(rec := b.rec.(failures := count))
  }

  function Step(cfg: Config, b: Breaker, op: Op): Breaker {
    match op
    case Enter(now) => Entered(cfg, b, now)
    case Succeed(_) => Succeeded(cfg, b)
    case Fail(now) => Failed(cfg, b, now)
    case Cancel(_) => b
  }

  /** How the body of a protected call ends; only some exceptions count as failures. */
  datatype Outcome = Returned | ExpectedException | OtherException

  /** What leaving the body records: nothing for an exception that is not expected, a cancellation say. */
  function Exit(outcome: Outcome, now: real): Op {
    match outcome
    case Returned => Succeed(now)
    case ExpectedException => Fail(now)
    case OtherException => Cancel(now)
  }

  /** The mutable record a store hands out. */
  class BreakerRecord {
    var state: State
    var failureCount: nat
    var successCount: nat
    var openedAt: Option<real>

    ghost function Value(): Record
      reads this
    {
      Record(state, failureCount, successCount, openedAt)
    }

    constructor (r: Record)
      ensures Value() == r
    {
      state, failureCount, successCount, openedAt := r.state, r.failures, r.successes, r.openedAt;
    }
  }

  /** Keeps the record object itself: every load returns the same, live object. */
  class InMemoryStore {
    var record: BreakerRecord

    constructor ()
      ensures fresh(record) && record.Value() == Record(Closed, 0, 0, None)
    {
      record := new BreakerRecord(FRESH_RECORD);
    }
  }

  /** Keeps only the record's contents, as a remote store would: a load is a fresh copy. */
  class SnapshotStore {
    var saved: Record

    constructor ()
      ensures saved == Record(Closed, 0, 0, None)
    {
      saved := FRESH_RECORD;
    }
  }

  /** The store behind a breaker: one of the two kinds. */
  datatype BreakerStore = Aliasing(memory: InMemoryStore) | Copying(remote: SnapshotStore) {

    /** The store object itself. */
    ghost function Holder(): set<object> {
      match this
      case Aliasing(m) => {m}
      case Copying(r) => {r}
    }

    /** The objects the stored contents live in. */
    ghost function Footprint(): set<object>
      reads Holder()
    {
      match this
      case Aliasing(m) => {m, m.record}
      case Copying(r) => {r}
    }

    /** The contents a load would see now. */
    ghost function Stored(): Record
      reads Holder(), Footprint()
    {
      match this
      case Aliasing(m) => m.record.Value()
      case Copying(r) => r.saved
    }

    method Load() returns (rec: BreakerRecord)
      ensures rec.Value() == Stored()
      ensures match this
              case Aliasing(m) => rec == m.record
              case Copying(_) => fresh(rec)
    {
      match this {
        case Aliasing(m) => rec := m.record;
        case Copying(r) => rec := new BreakerRecord(r.saved);
      }
    }

    method Save(rec: BreakerRecord)
      modifies Holder()
      ensures Stored() == rec.Value()
      ensures Aliasing? ==> memory.record == rec
    {
      match this {
        case Aliasing(m) => m.record := rec;
        case Copying(r) =>
          r.saved := Record(rec.state, rec.failureCount, rec.successCount, rec.openedAt);
      }
    }
  }

  /**
   The breaker over a store. Every operation is the abstract step on the stored
   record, whichever kind of store holds it.
   */
  class CircuitBreaker {
    const cfg: Config
    const store: BreakerStore
    var gauge: int
    var openTotal: nat
    var rejectionsTotal: nat
    var events: seq<Transition>

    ghost function Footprint(): set<object>
      reads store.Holder()
    {
      {this} + store.Footprint()
    }

    ghost predicate Valid()
      reads this, store.Holder(), Footprint()
    {
      this !in store.Footprint() && gauge == GaugeOf(store.Stored().state)
    }

    ghost function Abstract(): Breaker
      reads this, store.Holder(), Footprint()
    {
      Breaker(store.Stored(), openTotal, rejectionsTotal, events)
    }

    constructor (cfg: Config, store: BreakerStore)
      ensures this.cfg == cfg && this.store == store
      ensures Valid()
      ensures Abstract() == Breaker(store.Stored(), 0, 0, [])
    {
      this.cfg, this.store := cfg, store;
      openTotal, rejectionsTotal, events := 0, 0, [];
      new;
      var rec := store.Load();
      gauge := GaugeOf(rec.state);
    }

    method Allow(now: real) returns (ok: bool)
      requires Valid()
      modifies Footprint()
      ensures Valid() && fresh(Footprint() - old(Footprint()))
      ensures ok == Admits(cfg, old(Abstract()).rec, now)
      ensures Abstract() == if ok then Entered(cfg, old(Abstract()), now) else old(Abstract())
    {
      var transitionedHalfOpen := false;
      var rec := store.Load();
      if rec.state == Open {
        if now - rec.openedAt.GetOr(0.0) < cfg.recoveryTimeout {
          return false;
        }
        rec.successCount := 0;
        rec.state := HalfOpen;
        gauge := GaugeOf(HalfOpen);
        store.Save(rec);
        transitionedHalfOpen := true;
      }
      if transitionedHalfOpen {
        events := events + [HalfOpened];
      }
      return true;
    }

    method RecordSuccess()
      requires Valid()
      modifies Footprint()
      ensures Valid() && fresh(Footprint() - old(Footprint()))
      ensures Abstract() == Succeeded(cfg, old(Abstract()))
    {
      var closed := false;
      var rec := store.Load();
      if rec.state == HalfOpen {
        rec.successCount := rec.successCount + 1;
        if rec.successCount >= cfg.successThreshold {
          rec.failureCount := 0;
          rec.successCount := 0;
          rec.openedAt := None;
          rec.state := Closed;
          gauge := GaugeOf(Closed);
          closed := true;
        }
      } else {
        rec.failureCount := 0;
      }
      store.Save(rec);
      if closed {
        events := events + [Reclosed];
      }
    }

    method RecordFailure(now: real)
      requires Valid()
      modifies Footprint()
      ensures Valid() && fresh(Footprint() - old(Footprint()))
      ensures Abstract() == Failed(cfg, old(Abstract()), now)
    {
      var hasOpened := false;
      var rec := store.Load();
      if rec.state == HalfOpen {
        rec.openedAt := Some(now);
        rec.successCount := 0;
        rec.state := Open;
        gauge := GaugeOf(Open);
        openTotal := openTotal + 1;
        hasOpened := true;
      } else {
        rec.failureCount := rec.failureCount + 1;
        if rec.failureCount >= cfg.failureThreshold {
          rec.openedAt := Some(now);
          rec.state := Open;
          gauge := GaugeOf(Open);
          openTotal := openTotal + 1;
          hasOpened := true;
        }
      }
      var count := rec.failureCount;
      store.Save(rec);
      if hasOpened {
        events := events + [Opened(count)];
      }
    }

    /** The entry half of `protect`: a refused call is counted and raises. */
    method EnterCall(now: real) returns (admitted: bool)
      requires Valid()
      modifies Footprint()
      ensures Valid() && fresh(Footprint() - old(Footprint()))
      ensures admitted == Admits(cfg, old(Abstract()).rec, now)
      ensures Abstract() == Step(cfg, old(Abstract()), Enter(now))
      ensures rejectionsTotal == old(rejectionsTotal) + (if admitted then 0 else 1)
    {
      admitted := Allow(now);
      if !admitted {
        rejectionsTotal := rejectionsTotal + 1;
      }
    }

    /**
     A whole protected call, made while no other is: in CLOSED it resets or advances the
     failure count, on trial it decides between OPEN, one more success and CLOSED, and an
     exception that is not expected records nothing.
     */
    method Protect(entered: real, outcome: Outcome, exited: real) returns (admitted: bool)
      requires Valid()
      modifies Footprint()
      ensures Valid() && fresh(Footprint() - old(Footprint()))
      ensures admitted == Admits(cfg, old(Abstract()).rec, entered)
      ensures var inside := Step(cfg, old(Abstract()), Enter(entered));
              Abstract() == if admitted then Step(cfg, inside, Exit(outcome, exited)) else inside
      ensures !admitted ==>
                Abstract() == old(Abstract()).(rejections := old(rejectionsTotal) + 1)
      ensures admitted && old(Abstract()).rec.state == Closed ==>
                var (was, now) := (old(Abstract()).rec, Abstract().rec);
                match outcome
                case Returned => now == was.(failures := 0)
                case ExpectedException =>
                  now == (if was.failures + 1 >= cfg.failureThreshold
                          then was.(state := Open, failures := was.failures + 1, openedAt := Some(exited))
                          else was.(failures := was.failures + 1))
                case OtherException => Abstract() == old(Abstract())
      ensures admitted && old(Abstract()).rec.state != Closed ==>
                var (was, now) := (old(Abstract()).rec, Abstract().rec);
                var trials := if was.state == Open then 0 else was.successes;
                match outcome
                case Returned =>
                  now == (if trials + 1 >= cfg.successThreshold then Record(Closed, 0, 0, None)
                          else was.(state := HalfOpen, successes := trials + 1))
                case ExpectedException => now == was.(state := Open, successes := 0, openedAt := Some(exited))
                case OtherException => now == was.(state := HalfOpen, successes := trials)
    {
      admitted := EnterCall(entered);
      if !admitted {
        return;
      }
      match outcome {
        case Returned => RecordSuccess();
        case ExpectedException => RecordFailure(exited);
        case OtherException =>
      }
    }

    /** Any atomic step; `admitted` is meaningful for Enter only. */
    method Perform(op: Op) returns (admitted: bool)
      requires Valid()
      modifies Footprint()
      ensures Valid() && fresh(Footprint() - old(Footprint()))
      ensures Abstract() == Step(cfg, old(Abstract()), op)
      ensures admitted == (op.Enter? ==> Admits(cfg, old(Abstract()).rec, op.at))
    {
      admitted := true;
      match op {
        case Enter(now) => admitted := EnterCall(now);
        case Succeed(_) => RecordSuccess();
        case Fail(now) => RecordFailure(now);
        case Cancel(_) =>
      }
    }
  }
}

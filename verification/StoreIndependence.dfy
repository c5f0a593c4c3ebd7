/**
 A breaker behaves the same over the store that hands out its live record and
 over one that hands out copies, because every change is saved back.
 */
module StoreIndependence {
  import opened CircuitBreaking
  import opened BreakerRuns

  /** Which steps of a run were let through (a step that is no admission always is). */
  function Verdicts(cfg: Config, ops: seq<Op>): seq<bool> {
    if ops == [] then []
    else
      Verdicts(cfg, Init(ops))
      + [Last(ops).Enter? ==> Admits(cfg, Run(cfg, Init(ops)).rec, Last(ops).at)]
  }

  method Drive(breaker: CircuitBreaker, ops: seq<Op>) returns (verdicts: seq<bool>)
    requires breaker.Valid() && breaker.Abstract() == FRESH_BREAKER
    modifies breaker.Footprint()
    ensures breaker.Valid() && fresh(breaker.Footprint() - old(breaker.Footprint()))
    ensures breaker.Abstract() == Run(breaker.cfg, ops)
    ensures verdicts == Verdicts(breaker.cfg, ops)
  {
    verdicts := [];
    for i := 0 to |ops|
      invariant breaker.Valid() && fresh(breaker.Footprint() - old(breaker.Footprint()))
      invariant breaker.Abstract() == Run(breaker.cfg, ops[..i])
      invariant verdicts == Verdicts(breaker.cfg, ops[..i])
    {
      assert Init(ops[..i + 1]) == ops[..i];
      var admitted := breaker.Perform(ops[i]);
      verdicts := verdicts + [admitted];
    }
    assert ops[..|ops|] == ops;
  }

  /** The two heaps agree after every run: verdicts, record, gauge, counters and events. */
  method SameOverBothStores(cfg: Config, ops: seq<Op>)
    returns (live: CircuitBreaker, copied: CircuitBreaker, onLive: seq<bool>, onCopies: seq<bool>)
    ensures live.store.Aliasing? && copied.store.Copying?
    ensures onLive == onCopies == Verdicts(cfg, ops)
    ensures live.Abstract() == copied.Abstract() == Run(cfg, ops)
    ensures live.gauge == copied.gauge
         == match Run(cfg, ops).rec.state case Closed => 0 case Open => 1 case HalfOpen => 2
  {
    hide Run, Verdicts, Step;
    var memory := new InMemoryStore();
    live := new CircuitBreaker(cfg, Aliasing(memory));
    onLive := Drive(live, ops);
    var remote := new SnapshotStore();
    copied := new CircuitBreaker(cfg, Copying(remote));
    onCopies := Drive(copied, ops);
  }
}

/**
 The breakers' audit trail: every transition of every breaker persisted to the shared
 log, among the events of other sources, and read back.
 */
module AuditReplay {
  import opened Options
  import opened CircuitBreaking
  import opened BreakerRuns
  import opened FailureLog

  const BREAKER_SOURCE := "circuit_breaker"

  /** One atomic act: a step of a named breaker with the events it persists, or a foreign line. */
  datatype Act =
    | Operate(name: string, op: Op, stamp: string)
    | Record(e: FailureEvent)
    | Scribble(text: string)

  type Configs = string -> Config

  datatype World = World(breakers: map<string, Breaker>, chunks: seq<Chunk>)

  const EMPTY_WORLD := World(map[], [])

  function Named(w: World, name: string): Breaker {
    if name in w.breakers then w.breakers[name] else FRESH_BREAKER
  }

  function Persisted(name: string, t: Transition, stamp: string): FailureEvent {
    match t
    case Opened(count) =>
      FailureEvent(BREAKER_SOURCE, "opened", map["name" := Text(name), "failure_count" := Number(count)], stamp)
    case HalfOpened => FailureEvent(BREAKER_SOURCE, "half_open", map["name" := Text(name)], stamp)
    case Reclosed => FailureEvent(BREAKER_SOURCE, "closed", map["name" := Text(name)], stamp)
  }

  function Performed(cfgs: Configs, w: World, act: Act): World {
    match act
    case Record(e) => w.(chunks := w.chunks + [Written(e)])
    case Scribble(text) => w.(chunks := w.chunks + [Noise(text)])
    case Operate(name, op, stamp) =>
      var before := Named(w, name);
      var after := Step(cfgs(name), before, op);
      World(w.breakers[name := after],
            if |after.trail| > |before.trail|
            then w.chunks + [Written(Persisted(name, after.trail[|after.trail| - 1], stamp))] else w.chunks)
  }

  function After(cfgs: Configs, acts: seq<Act>): World {
    if acts == [] then EMPTY_WORLD
    else Performed(cfgs, After(cfgs, acts[..|acts| - 1]), acts[|acts| - 1])
  }

  /** The steps of one breaker. */
  function StepsOf(acts: seq<Act>, name: string): seq<Op> {
    if acts == [] then []
    else
      var (before, act) := (StepsOf(acts[..|acts| - 1], name), acts[|acts| - 1]);
      if act.Operate? && act.name == name then before + [act.op] else before
  }

  /** Other writers use other sources, and foreign lines are ones readers skip. */
  ghost predicate Separate(codec: Codec, acts: seq<Act>) {
    forall act | act in acts ::
      && (act.Record? ==> act.e.source != BREAKER_SOURCE)
      && (act.Scribble? ==> Skippable(codec, act.text))
  }

  // ----- The reader -----

  /** The transition of breaker `name` that an event reports, if it reports one. */
  function Reported(e: FailureEvent, name: string): Option<Transition> {
    if "name" !in e.details || e.details["name"] != Text(name) then None
    else if e.event == "half_open" then Some(HalfOpened)
    else if e.event == "closed" then Some(Reclosed)
    else if e.event == "opened" && "failure_count" in e.details && e.details["failure_count"].Number?
            && e.details["failure_count"].number >= 0 then
      Some(Opened(e.details["failure_count"].number))
    else None
  }

  function TrailIn(events: seq<FailureEvent>, name: string): seq<Transition> {
    if events == [] then []
    else
      var n := |events| - 1;
      var before := TrailIn(events[..n], name);
      match Reported(events[n], name)
      case None => before
      case Some(t) => before + [t]
  }

  lemma TrailInAppend(events: seq<FailureEvent>, e: FailureEvent, name: string)
    ensures TrailIn(events + [e], name)
         == TrailIn(events, name) + (match Reported(e, name) case None => [] case Some(t) => [t])
  {
    assert (events + [e])[..|events|] == events;
  }

  lemma PersistedReports(name: string, t: Transition, stamp: string, reader: string)
    ensures Reported(Persisted(name, t, stamp), reader) == if name == reader then Some(t) else None
  {
  }

  /** A step emits at most one event, at the end of the trail. */
  lemma StepExtendsTrail(cfg: Config, b: Breaker, op: Op)
    ensures var after := Step(cfg, b, op).trail;
            after == b.trail || (after != [] && after[..|after| - 1] == b.trail)
  {
  }

  function BreakerEvents(w: World): seq<FailureEvent> {
    Matching(EventsIn(w.chunks), Some(BREAKER_SOURCE))
  }

  lemma ChunkAppends(w: World, chunk: Chunk)
    ensures BreakerEvents(w.(chunks := w.chunks + [chunk]))
         == BreakerEvents(w)
            + (if chunk.Written? && chunk.e.source == BREAKER_SOURCE then [chunk.e] else [])
  {
    assert (w.chunks + [chunk])[..|w.chunks|] == w.chunks;
    if chunk.Written? {
      MatchingAppend(EventsIn(w.chunks), chunk.e, Some(BREAKER_SOURCE));
    }
  }

  /** The event an operation persists, if it made a transition. */
  lemma OperationLogged(cfgs: Configs, w: World, name: string, op: Op, stamp: string)
    ensures var before := Named(w, name).trail;
            var after := Step(cfgs(name), Named(w, name), op).trail;
            BreakerEvents(Performed(cfgs, w, Operate(name, op, stamp)))
            == BreakerEvents(w)
               + (if |after| > |before| then [Persisted(name, after[|after| - 1], stamp)] else [])
  {
    var before := Named(w, name).trail;
    var after := Step(cfgs(name), Named(w, name), op).trail;
    if |after| > |before| {
      ChunkAppends(w, Written(Persisted(name, after[|after| - 1], stamp)));
    }
  }

  lemma OperationKeepsTrail(cfgs: Configs, w: World, other: string, op: Op, stamp: string, name: string)
    requires TrailIn(BreakerEvents(w), name) == Named(w, name).trail
    ensures var after := Performed(cfgs, w, Operate(other, op, stamp));
            TrailIn(BreakerEvents(after), name) == Named(after, name).trail
  {
    var b := Named(w, other);
    var stepped := Step(cfgs(other), b, op).trail;
    StepExtendsTrail(cfgs(other), b, op);
    OperationLogged(cfgs, w, other, op, stamp);
    hide Step, BreakerEvents;
    if |stepped| > |b.trail| {
      var t := stepped[|stepped| - 1];
      assert stepped == b.trail + [t];
      TrailInAppend(BreakerEvents(w), Persisted(other, t, stamp), name);
      PersistedReports(other, t, stamp, name);
    } else {
      assert BreakerEvents(w) + [] == BreakerEvents(w);
    }
  }

  lemma PerformedKeepsTrail(cfgs: Configs, w: World, act: Act, name: string)
    requires TrailIn(BreakerEvents(w), name) == Named(w, name).trail
    requires act.Record? ==> act.e.source != BREAKER_SOURCE
    ensures TrailIn(BreakerEvents(Performed(cfgs, w, act)), name) == Named(Performed(cfgs, w, act), name).trail
  {
    match act {
      case Record(e) => ChunkAppends(w, Written(e));
      case Scribble(text) => ChunkAppends(w, Noise(text));
      case Operate(other, op, stamp) => OperationKeepsTrail(cfgs, w, other, op, stamp, name);
    }
  }

  /** The log's events of a breaker are its trail, and its steps are its run. */
  lemma {:induction false} LogMirrorsBreakers(codec: Codec, cfgs: Configs, acts: seq<Act>, name: string)
    requires Separate(codec, acts)
    ensures var w := After(cfgs, acts);
            && Named(w, name) == Run(cfgs(name), StepsOf(acts, name))
            && TrailIn(BreakerEvents(w), name) == Named(w, name).trail
  {
    if acts != [] {
      var (before, act) := (acts[..|acts| - 1], acts[|acts| - 1]);
      assert act in acts;
      LogMirrorsBreakers(codec, cfgs, before, name);
      PerformedKeepsTrail(cfgs, After(cfgs, before), act, name);
      if act.Operate? && act.name == name {
        RunAppend(cfgs(name), StepsOf(before, name), act.op);
      }
    }
  }

  lemma {:induction false} LogStaysBenign(codec: Codec, cfgs: Configs, acts: seq<Act>)
    requires Separate(codec, acts)
    ensures Benign(codec, After(cfgs, acts).chunks)
  {
    if acts != [] {
      assert acts[|acts| - 1] in acts;
      LogStaysBenign(codec, cfgs, acts[..|acts| - 1]);
    }
  }

  /** Reading the whole log by source gives, for every breaker name, its exact trail: a legal one. */
  lemma {:induction false} TrailReadBack(codec: Codec, cfgs: Configs, acts: seq<Act>, name: string)
    requires Faithful(codec) && Separate(codec, acts)
    ensures var read := Read(codec, TextOf(codec, After(cfgs, acts).chunks), None, Some(BREAKER_SOURCE));
            && read.Events?
            && TrailIn(read.events, name) == Run(cfgs(name), StepsOf(acts, name)).trail
            && LegalTrail(TrailIn(read.events, name))
  {
    LogMirrorsBreakers(codec, cfgs, acts, name);
    LogStaysBenign(codec, cfgs, acts);
    RoundTrip(codec, After(cfgs, acts).chunks, None, Some(BREAKER_SOURCE));
    TrailReplays(cfgs(name), StepsOf(acts, name));
  }

  /** Replaying what was read rebuilds the breaker's state and its counter of openings. */
  lemma {:induction false} ReplayRebuilds(codec: Codec, cfgs: Configs, acts: seq<Act>, name: string)
    requires Faithful(codec) && Separate(codec, acts)
    ensures var read := Read(codec, TextOf(codec, After(cfgs, acts).chunks), None, Some(BREAKER_SOURCE));
            var b := Run(cfgs(name), StepsOf(acts, name));
            && read.Events? && Replay(TrailIn(read.events, name)) == b.rec.state
            && Openings(TrailIn(read.events, name)) == b.openTotal
  {
    TrailReadBack(codec, cfgs, acts, name);
    TrailReplays(cfgs(name), StepsOf(acts, name));
  }

  lemma {:induction false} SuffixReplays(events: seq<FailureEvent>, k: nat, name: string)
    requires k <= |events| && TrailIn(events[k..], name) != []
    ensures TrailIn(events, name) != [] && Replay(TrailIn(events[k..], name)) == Replay(TrailIn(events, name))
  {
    var n := |events| - 1;
    assert k < |events|;
    assert events[k..][..n - k] == events[..n][k..];
    if Reported(events[n], name).None? {
      SuffixReplays(events[..n], k, name);
    }
  }

  /** Any limited read that still shows an event of the breaker tells its present state. */
  lemma {:induction false} TailTellsState(
      codec: Codec, cfgs: Configs, acts: seq<Act>, name: string, limit: int)
    requires Faithful(codec) && Separate(codec, acts)
    ensures var read := Read(codec, TextOf(codec, After(cfgs, acts).chunks), Some(limit), Some(BREAKER_SOURCE));
            read.Events?
            && (TrailIn(read.events, name) != [] ==>
                  Replay(TrailIn(read.events, name)) == Run(cfgs(name), StepsOf(acts, name)).rec.state)
  {
    var w := After(cfgs, acts);
    LogMirrorsBreakers(codec, cfgs, acts, name);
    LogStaysBenign(codec, cfgs, acts);
    RoundTrip(codec, w.chunks, Some(limit), Some(BREAKER_SOURCE));
    TrailReplays(cfgs(name), StepsOf(acts, name));
    var events := BreakerEvents(w);
    var tail := Tail(events, limit);
    TailKeepsLatest(events, limit);
    if TrailIn(tail, name) != [] {
      SuffixReplays(events, |events| - |tail|, name);
    }
  }

  // ----- The log in plain -----

  /** The events recorded under `source` by other writers. */
  function RecordedUnder(acts: seq<Act>, source: string): seq<FailureEvent> {
    if acts == [] then []
    else
      var (before, act) := (RecordedUnder(acts[..|acts| - 1], source), acts[|acts| - 1]);
      if act.Record? && act.e.source == source then before + [act.e] else before
  }

  lemma OtherSourceUntouched(cfgs: Configs, w: World, act: Act, source: string)
    requires source != BREAKER_SOURCE
    ensures Matching(EventsIn(Performed(cfgs, w, act).chunks), Some(source))
         == Matching(EventsIn(w.chunks), Some(source))
            + (if act.Record? && act.e.source == source then [act.e] else [])
  {
    var after := Performed(cfgs, w, act).chunks;
    if after != w.chunks {
      var last := after[|after| - 1];
      assert after == w.chunks + [last];
      hide Performed;
      EventsInAppend(w.chunks, last);
      if last.Written? {
        MatchingAppend(EventsIn(w.chunks), last.e, Some(source));
      }
    }
  }

  /** The other sources read back too: exactly what was recorded under each. */
  lemma {:induction false} OthersReadBack(codec: Codec, cfgs: Configs, acts: seq<Act>, source: string)
    requires Faithful(codec) && Separate(codec, acts) && source != BREAKER_SOURCE
    ensures Read(codec, TextOf(codec, After(cfgs, acts).chunks), None, Some(source))
         == Events(RecordedUnder(acts, source))
  {
    LogStaysBenign(codec, cfgs, acts);
    RoundTrip(codec, After(cfgs, acts).chunks, None, Some(source));
    hide Faithful, Separate;
    OthersLogged(cfgs, acts, source);
  }

  lemma {:induction false} OthersLogged(cfgs: Configs, acts: seq<Act>, source: string)
    requires source != BREAKER_SOURCE
    ensures Matching(EventsIn(After(cfgs, acts).chunks), Some(source)) == RecordedUnder(acts, source)
  {
    if acts != [] {
      var (before, act) := (acts[..|acts| - 1], acts[|acts| - 1]);
      OthersLogged(cfgs, before, source);
      OtherSourceUntouched(cfgs, After(cfgs, before), act, source);
      hide Performed, Matching;
    }
  }

  /** One trip and recovery at thresholds of one, as the log shows it. */
  lemma {:induction false} OneTripLogged(cfgs: Configs, name: string, start: real, stamp: string)
    requires cfgs(name).failureThreshold == cfgs(name).successThreshold == 1
    ensures var again := start + cfgs(name).recoveryTimeout;
            var acts := [Operate(name, Fail(start), stamp), Operate(name, Enter(again), stamp),
                         Operate(name, Succeed(again), stamp)];
            After(cfgs, acts).chunks
            == [Written(FailureEvent("circuit_breaker", "opened",
                                     map["name" := Text(name), "failure_count" := Number(1)], stamp)),
                Written(FailureEvent("circuit_breaker", "half_open", map["name" := Text(name)], stamp)),
                Written(FailureEvent("circuit_breaker", "closed", map["name" := Text(name)], stamp))]
  {
    var again := start + cfgs(name).recoveryTimeout;
    var a := [Operate(name, Fail(start), stamp)];
    var b := a + [Operate(name, Enter(again), stamp)];
    var c := b + [Operate(name, Succeed(again), stamp)];
    assert c[..2] == b && b[..1] == a && a[..0] == [];
    assert c == [Operate(name, Fail(start), stamp), Operate(name, Enter(again), stamp),
                 Operate(name, Succeed(again), stamp)];
    assert Named(After(cfgs, a), name)
        == Breaker(CircuitBreaking.Record(State.Open, 1, 0, Some(start)), 1, 0, [Opened(1)]);
    assert Named(After(cfgs, b), name).trail == [Opened(1), HalfOpened];
  }
}

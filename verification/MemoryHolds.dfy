/**
 The accounting of memory holds: requested, allocated by a task that starts
 later, released when the hold ends, and forgotten by a reset in between.
 */
module MemoryHolds {

  newtype byte = x: int | 0 <= x < 256

  type Block = seq<byte>

  const PAGE := 4096
  const CAP := 256 * 1024 * 1024

  /** A block after one byte of each of its pages has been touched. */
  function Touched(size: nat): (block: Block) {
    seq(size, i => if i % PAGE == 0 then 1 else 0)
  }

  /** `list.remove`: drops the first equal element, if there is one. */
  function Without(blocks: seq<Block>, block: Block): seq<Block> {
    if blocks == [] then []
    else if blocks[0] == block then blocks[1..]
    else [blocks[0]] + Without(blocks[1..], block)
  }

  /**
   `bytes`, `listed` and `gauge` are the service's; `pending` are the accepted sizes whose
   task has not started, `live` the blocks whose task is still holding them.
   */
  datatype Memory = Memory(bytes: int, listed: seq<Block>, gauge: int, pending: seq<nat>, live: seq<Block>)

  const EMPTY_MEMORY := Memory(0, [], 0, [], [])

  datatype Step = Trigger(size: nat) | Start(task: nat) | Expire(task: nat) | Reset

  function Drop<T>(items: seq<T>, i: nat): seq<T>
    requires i < |items|
  {
    items[..i] + items[i + 1..]
  }

  predicate Accepts(m: Memory, size: nat) {
    m.bytes + size <= CAP
  }

  function Started(m: Memory, block: Block): Memory {
    m.(listed := m.listed + [block], bytes := m.bytes + |block|, gauge := 1, live := m.live + [block])
  }

  function Released(m: Memory, block: Block): Memory {
    var bytes := if m.bytes - |block| > 0 then m.bytes - |block| else 0;
    m.(listed := Without(m.listed, block), bytes := bytes, gauge := if bytes <= 0 then 0 else m.gauge)
  }

  function Cleared(m: Memory): Memory {
    m.(listed := [], bytes := 0, gauge := 0)
  }

  /** A step naming no task is no step. */
  function Next(m: Memory, step: Step): Memory {
    match step
    case Trigger(size) => if Accepts(m, size) then m.(pending := m.pending + [size]) else m
    case Start(i) =>
      if i < |m.pending| then Started(m, Touched(m.pending[i])).(pending := Drop(m.pending, i)) else m
    case Expire(i) =>
      if i < |m.live| then Released(m, m.live[i]).(live := Drop(m.live, i)) else m
    case Reset => Cleared(m)
  }

  function Run(steps: seq<Step>): Memory {
    if steps == [] then EMPTY_MEMORY else Next(Run(steps[..|steps| - 1]), steps[|steps| - 1])
  }

  // ----- Totals -----

  function Total(blocks: seq<Block>): nat {
    if blocks == [] then 0 else |blocks[0]| + Total(blocks[1..])
  }

  lemma {:induction false} TotalOfConcat(a: seq<Block>, b: seq<Block>)
    ensures Total(a + b) == Total(a) + Total(b)
  {
    if a == [] {
      assert a + b == b;
    } else {
      assert (a + b)[1..] == a[1..] + b;
      TotalOfConcat(a[1..], b);
    }
  }

  lemma TotalOfDrop(blocks: seq<Block>, i: nat)
    requires i < |blocks|
    ensures Total(Drop(blocks, i)) == Total(blocks) - |blocks[i]|
    ensures multiset(Drop(blocks, i)) == multiset(blocks) - multiset{blocks[i]}
  {
    assert blocks == blocks[..i] + ([blocks[i]] + blocks[i + 1..]);
    TotalOfConcat(blocks[..i], [blocks[i]] + blocks[i + 1..]);
    TotalOfConcat(blocks[..i], blocks[i + 1..]);
  }

  lemma {:induction false} WithoutFirst(blocks: seq<Block>, block: Block, i: nat)
    requires i <= |blocks| && block !in blocks[..i] && (i < |blocks| ==> blocks[i] == block)
    ensures Without(blocks, block) == if i < |blocks| then blocks[..i] + blocks[i + 1..] else blocks
  {
    if i > 0 {
      var rest := blocks[1..];
      assert blocks[..i][1..] == rest[..i - 1] && blocks == [blocks[0]] + rest;
      assert block !in rest[..i - 1] && blocks[0] == blocks[..i][0] && blocks[0] != block;
      WithoutFirst(rest, block, i - 1);
      assert i < |blocks| ==>
          blocks[..i] + blocks[i + 1..] == [blocks[0]] + (rest[..i - 1] + rest[i..]);
    }
  }

  lemma {:induction false} BagOfWithout(blocks: seq<Block>, block: Block)
    ensures multiset(Without(blocks, block)) == multiset(blocks) - multiset{block}
  {
    if blocks != [] {
      assert blocks == [blocks[0]] + blocks[1..];
      if blocks[0] != block {
        BagOfWithout(blocks[1..], block);
      }
    }
  }

  lemma {:induction false} TotalOfWithout(blocks: seq<Block>, block: Block)
    ensures Total(Without(blocks, block)) == Total(blocks) - (if block in blocks then |block| else 0)
  {
    if blocks != [] && blocks[0] != block {
      TotalOfWithout(blocks[1..], block);
    }
  }

  lemma {:induction false} SmallerBagSmallerTotal(a: seq<Block>, b: seq<Block>)
    requires multiset(a) <= multiset(b)
    ensures Total(a) <= Total(b)
  {
    if a != [] {
      assert a == [a[0]] + a[1..];
      assert a[0] in multiset(b);
      var i :| 0 <= i < |b| && b[i] == a[0];
      TotalOfDrop(b, i);
      SmallerBagSmallerTotal(a[1..], Drop(b, i));
    }
  }

  // ----- The sandwich -----

  ghost predicate Sandwiched(m: Memory) {
    && 0 <= m.bytes <= Total(m.listed)
    && multiset(m.listed) <= multiset(m.live)
    && (m.gauge == 0 || m.gauge == 1)
    && (m.bytes > 0 ==> m.gauge == 1)
    && (m.gauge == 1 ==> m.live != [])
  }

  lemma StartStaysSandwiched(m: Memory, block: Block)
    requires Sandwiched(m)
    ensures Sandwiched(Started(m, block))
  {
    TotalOfConcat(m.listed, [block]);
    assert Total([block]) == |block| + Total([]);
  }

  lemma ReleaseStaysSandwiched(m: Memory, i: nat)
    requires Sandwiched(m) && i < |m.live|
    ensures Sandwiched(Released(m, m.live[i]).(live := Drop(m.live, i)))
  {
    var after := Released(m, m.live[i]).(live := Drop(m.live, i));
    BagOfWithout(m.listed, m.live[i]);
    TotalOfWithout(m.listed, m.live[i]);
    TotalOfDrop(m.live, i);
    SmallerBagSmallerTotal(after.listed, after.live);
    if after.live == [] {
      assert |multiset(after.listed)| == 0;
    }
  }

  lemma {:induction false} StaysSandwiched(m: Memory, step: Step)
    requires Sandwiched(m)
    ensures Sandwiched(Next(m, step))
  {
    match step {
      case Trigger(_) =>
      case Reset =>
      case Start(i) =>
        if i < |m.pending| {
          StartStaysSandwiched(m, Touched(m.pending[i]));
        }
      case Expire(i) =>
        if i < |m.live| {
          ReleaseStaysSandwiched(m, i);
        }
    }
  }

  /**
   Over every interleaving of requests, starts, expiries and resets, the accounted
   bytes stay between zero and the listed blocks, those among the held ones; and
   nothing at all is left once no hold is.
   */
  lemma {:induction false} Sandwich(steps: seq<Step>)
    ensures var m := Run(steps);
            && Sandwiched(m)
            && 0 <= m.bytes <= Total(m.listed) <= Total(m.live)
            && (m.live == [] ==> m.bytes == 0 && m.listed == [] && m.gauge == 0)
  {
    if steps != [] {
      Sandwich(steps[..|steps| - 1]);
      StaysSandwiched(Run(steps[..|steps| - 1]), steps[|steps| - 1]);
    }
    var m := Run(steps);
    SmallerBagSmallerTotal(m.listed, m.live);
    assert m.live == [] ==> |multiset(m.listed)| == 0;
  }

  /** The listed blocks are the held ones, and all three totals are one. */
  ghost predicate Exact(m: Memory) {
    multiset(m.listed) == multiset(m.live) && m.bytes == Total(m.listed) == Total(m.live)
  }

  lemma StartStaysExact(m: Memory, block: Block)
    requires Exact(m)
    ensures Exact(Started(m, block))
  {
    TotalOfConcat(m.listed, [block]);
    TotalOfConcat(m.live, [block]);
    assert Total([block]) == |block| + Total([]);
  }

  lemma ReleaseStaysExact(m: Memory, i: nat)
    requires Exact(m) && i < |m.live|
    ensures Exact(Released(m, m.live[i]).(live := Drop(m.live, i)))
  {
    assert m.live[i] in multiset(m.listed);
    BagOfWithout(m.listed, m.live[i]);
    TotalOfWithout(m.listed, m.live[i]);
    TotalOfDrop(m.live, i);
  }

  /** Every step keeps the accounting exact, except a reset while something is held. */
  lemma ExactAfterStep(m: Memory, step: Step)
    requires Exact(m)
    ensures Exact(Next(m, step)) <==> (step == Reset ==> m.live == [])
  {
    match step {
      case Trigger(_) =>
      case Reset =>
        assert Exact(Cleared(m)) ==> |multiset(m.live)| == 0;
      case Start(i) =>
        if i < |m.pending| {
          StartStaysExact(m, Touched(m.pending[i]));
        }
      case Expire(i) =>
        if i < |m.live| {
          ReleaseStaysExact(m, i);
        }
    }
  }

  /** Every reset found nothing held; in particular there may be none. */
  ghost predicate ResetsWhenIdle(steps: seq<Step>) {
    steps != [] ==>
      var before := steps[..|steps| - 1];
      ResetsWhenIdle(before) && (steps[|steps| - 1] == Reset ==> Run(before).live == [])
  }

  lemma {:induction false} ExactOverRuns(steps: seq<Step>)
    requires ResetsWhenIdle(steps)
    ensures Exact(Run(steps))
  {
    if steps != [] {
      ExactOverRuns(steps[..|steps| - 1]);
      ExactAfterStep(Run(steps[..|steps| - 1]), steps[|steps| - 1]);
    }
  }

  /** A reset forgets holds that go on: the cap then no longer bounds what is really held. */
  lemma {:induction false} ResetForgetsHolds()
    ensures var m := Run([Trigger(CAP), Start(0), Reset, Trigger(CAP), Start(0)]);
            m.bytes == CAP && Total(m.live) == 2 * CAP
  {
    var a := [Trigger(CAP)];
    var b := a + [Start(0)];
    var c := b + [Reset];
    var d := c + [Trigger(CAP)];
    var e := d + [Start(0)];
    assert e == [Trigger(CAP), Start(0), Reset, Trigger(CAP), Start(0)];
    assert e[..4] == d && d[..3] == c && c[..2] == b && b[..1] == a && a[..0] == [];
    var block := Touched(CAP);
    assert Run(a) == EMPTY_MEMORY.(pending := [CAP]);
    assert Run(b) == Memory(CAP, [block], 1, [], [block]);
    assert Run(d) == Memory(0, [], 0, [CAP], [block]);
    TotalOfConcat([block], [block]);
    assert Total([block]) == |block| + Total([]);
  }

  // ----- The gauge -----

  ghost predicate GaugeExact(m: Memory) {
    m.gauge == 1 <==> m.bytes > 0
  }

  /**
   Starting a hold leaves the gauge telling whether memory is accounted exactly when
   the hold has a byte or others already do; a request may truncate to zero bytes.
   */
  lemma GaugeAfterStart(m: Memory, i: nat)
    requires Sandwiched(m) && i < |m.pending|
    ensures GaugeExact(Next(m, Start(i))) <==> m.pending[i] > 0 || m.bytes > 0
  {
  }

  ghost predicate Positive(steps: seq<Step>) {
    forall step | step in steps && step.Trigger? :: step.size > 0
  }

  /** With no empty request the gauge is exact over the whole run. */
  lemma {:induction false} GaugeIsExact(steps: seq<Step>)
    requires Positive(steps)
    ensures GaugeExact(Run(steps))
    ensures forall size | size in Run(steps).pending :: size > 0
  {
    if steps != [] {
      var (before, step) := (steps[..|steps| - 1], steps[|steps| - 1]);
      assert step in steps;
      GaugeIsExact(before);
      Sandwich(before);
      var m := Run(before);
      match step {
        case Trigger(_) =>
        case Reset =>
        case Expire(_) =>
        case Start(i) =>
          if i < |m.pending| {
            assert m.pending[i] in m.pending;
            GaugeAfterStart(m, i);
            assert forall size | size in Drop(m.pending, i) :: size in m.pending;
          }
      }
    }
  }

  // ----- The cap -----

  function Sum(sizes: seq<nat>): nat {
    if sizes == [] then 0 else sizes[0] + Sum(sizes[1..])
  }

  lemma {:induction false} SumOfConcat(a: seq<nat>, b: seq<nat>)
    ensures Sum(a + b) == Sum(a) + Sum(b)
  {
    if a == [] {
      assert a + b == b;
    } else {
      assert (a + b)[1..] == a[1..] + b;
      SumOfConcat(a[1..], b);
    }
  }

  lemma SumOfDrop(sizes: seq<nat>, i: nat)
    requires i < |sizes|
    ensures Sum(Drop(sizes, i)) == Sum(sizes) - sizes[i]
  {
    assert sizes == sizes[..i] + ([sizes[i]] + sizes[i + 1..]);
    SumOfConcat(sizes[..i], [sizes[i]] + sizes[i + 1..]);
    SumOfConcat(sizes[..i], sizes[i + 1..]);
  }

  /** What is accounted and what accepted requests will still add. */
  function Committed(m: Memory): int {
    m.bytes + Sum(m.pending)
  }

  /** Every accepted request found what was accounted and still to come, with itself, under the cap. */
  ghost predicate Unhurried(steps: seq<Step>) {
    steps != [] ==>
      var (before, step) := (steps[..|steps| - 1], steps[|steps| - 1]);
      Unhurried(before)
      && (step.Trigger? && Accepts(Run(before), step.size) ==> Committed(Run(before)) + step.size <= CAP)
  }

  lemma {:induction false} CapKept(steps: seq<Step>)
    requires Unhurried(steps)
    ensures Run(steps).bytes <= Committed(Run(steps)) <= CAP
  {
    if steps != [] {
      var (before, step) := (steps[..|steps| - 1], steps[|steps| - 1]);
      CapKept(before);
      Sandwich(before);
      var m := Run(before);
      match step {
        case Trigger(size) => SumOfConcat(m.pending, [size]);
        case Reset =>
        case Expire(_) =>
        case Start(i) =>
          if i < |m.pending| {
            SumOfDrop(m.pending, i);
          }
      }
    }
  }

  /** Every request found all earlier tasks started. */
  ghost predicate OneAtATime(steps: seq<Step>) {
    steps != [] ==>
      var before := steps[..|steps| - 1];
      OneAtATime(before) && (steps[|steps| - 1].Trigger? ==> Run(before).pending == [])
  }

  /** When a task starts before the next request is checked, the cap always holds. */
  lemma {:induction false} CapKeptOneAtATime(steps: seq<Step>)
    requires OneAtATime(steps)
    ensures Unhurried(steps) && Run(steps).bytes <= CAP
  {
    if steps != [] {
      CapKeptOneAtATime(steps[..|steps| - 1]);
    }
    CapKept(steps);
  }

  /**
   When resets find nothing held, a request is left pending exactly when what is really
   held and the request fit under 256 MiB together, however many tasks have yet to start.
   */
  lemma {:induction false} AcceptedIffHeldFits(steps: seq<Step>, size: nat)
    requires ResetsWhenIdle(steps)
    ensures Run(steps + [Trigger(size)])
         == Run(steps).(pending := if Total(Run(steps).live) + size <= 268435456
                                   then Run(steps).pending + [size] else Run(steps).pending)
  {
    assert (steps + [Trigger(size)])[..|steps|] == steps;
    ExactOverRuns(steps);
  }

  /** In particular, when each task has started before the next request, all that is held decides. */
  lemma {:induction false} AcceptedOneAtATime(steps: seq<Step>, size: nat)
    requires Reset !in steps && OneAtATime(steps + [Trigger(size)])
    ensures Run(steps + [Trigger(size)]).pending == (if Total(Run(steps).live) + size <= 268435456 then [size] else [])
  {
    assert (steps + [Trigger(size)])[..|steps|] == steps;
    NoResetIsIdle(steps);
    AcceptedIffHeldFits(steps, size);
  }

  lemma {:induction false} NoResetIsIdle(steps: seq<Step>)
    requires Reset !in steps
    ensures ResetsWhenIdle(steps)
  {
    if steps != [] {
      NoResetIsIdle(steps[..|steps| - 1]);
    }
  }

  /** Lets every pending task start, oldest first. */
  function Drained(m: Memory): Memory
    decreases |m.pending|
  {
    if m.pending == [] then m else Drained(Next(m, Start(0)))
  }

  /**
   The cap check reads the accounted bytes before earlier tasks have added theirs: once
   all have started the cap holds exactly when what was committed fits under it.
   */
  lemma {:induction false} CapExactlyWhenCommittedFits(m: Memory)
    ensures Drained(m).bytes == Committed(m)
    ensures Drained(m).bytes <= CAP <==> Committed(m) <= CAP
    decreases |m.pending|
  {
    if m.pending != [] {
      assert Drop(m.pending, 0) == m.pending[1..];
      CapExactlyWhenCommittedFits(Next(m, Start(0)));
    }
  }

  /** Two requests accepted before either task starts. */
  lemma {:induction false} CapOvertaken()
    ensures Drained(Run([Trigger(CAP), Trigger(CAP)])).bytes == 2 * CAP
  {
    var a := [Trigger(CAP)];
    assert [Trigger(CAP), Trigger(CAP)][..1] == a && a[..0] == [];
    assert Run(a) == EMPTY_MEMORY.(pending := [CAP]);
    var m := Run([Trigger(CAP), Trigger(CAP)]);
    assert m == EMPTY_MEMORY.(pending := [CAP, CAP]);
    CapExactlyWhenCommittedFits(m);
    assert Sum(m.pending) == CAP + Sum([CAP]) && Sum([CAP]) == CAP + Sum([]);
  }
}

/** The chaos controller: the state its endpoints, its data plane and its hold tasks update in place. */
module Chaos {
  import Injection = ErrorInjection
  import Holds = MemoryHolds

  class ChaosState {
    var latencyEnabled: bool
    var latencySeconds: real
    var errorEnabled: bool
    var errorRate: real
    var errorAccumulator: real
    var memoryBytes: int
    var memoryBlocks: seq<Holds.Block>
    var memoryGauge: int
    // The hold tasks: accepted and not yet started, and started and not yet over.
    var pendingTasks: seq<nat>
    var holdTasks: seq<Holds.Block>

    ghost function Injector(): Injection.Injector
      reads this
    {
      Injection.Injector(errorEnabled, errorRate, errorAccumulator)
    }

    ghost function Memory(): Holds.Memory
      reads this
    {
      Holds.Memory(memoryBytes, memoryBlocks, memoryGauge, pendingTasks, holdTasks)
    }

    constructor ()
      ensures Injector() == Injection.RESET_INJECTOR && Memory() == Holds.EMPTY_MEMORY
      ensures !errorEnabled && errorRate == 0.0 && errorAccumulator == 0.0
      ensures memoryBytes == 0 && memoryBlocks == [] && memoryGauge == 0
      ensures pendingTasks == [] && holdTasks == []
      ensures !latencyEnabled && latencySeconds == 0.0
    {
      latencyEnabled, latencySeconds := false, 0.0;
      errorEnabled, errorRate, errorAccumulator := false, 0.0, 0.0;
      memoryBytes, memoryBlocks, memoryGauge := 0, [], 0;
      pendingTasks, holdTasks := [], [];
    }

    method ShouldInjectError() returns (inject: bool)
      modifies this`errorAccumulator
      ensures inject == Injection.Injects(old(Injector()))
      ensures inject <==> errorEnabled && errorRate > 0.0 && old(errorAccumulator) + errorRate >= 1.0
      ensures Injector() == Injection.Decided(old(Injector()))
    {
      if !(errorEnabled && errorRate > 0.0) {
        return false;
      }
      errorAccumulator := errorAccumulator + errorRate;
      if errorAccumulator >= 1.0 {
        errorAccumulator := errorAccumulator - 1.0;
        return true;
      }
      return false;
    }

    method SetErrors(enable: bool, ratePercent: real)
      modifies this`errorEnabled, this`errorRate, this`errorAccumulator
      ensures Injector() == Injection.Configured(enable, ratePercent)
      ensures errorEnabled == enable && errorAccumulator == 0.0
      ensures errorRate == if enable then ratePercent / 100.0 else 0.0
    {
      errorEnabled := enable;
      errorRate := if enable then ratePercent / 100.0 else 0.0;
      errorAccumulator := 0.0;
    }

    /** Accepts or refuses a request in megabytes; an accepted one leaves a task to start. */
    method TriggerMemory(sizeMb: real) returns (accepted: bool)
      requires sizeMb > 0.0
      modifies this`pendingTasks
      ensures (sizeMb * 1024.0 * 1024.0).Floor >= 0
      ensures var size: nat := (sizeMb * 1024.0 * 1024.0).Floor;
              accepted == Holds.Accepts(old(Memory()), size)
              && Memory() == Holds.Next(old(Memory()), Holds.Trigger(size))
      ensures accepted <==> old(memoryBytes) + (sizeMb * 1024.0 * 1024.0).Floor <= 268435456
      ensures pendingTasks
           == if accepted then old(pendingTasks) + [(sizeMb * 1024.0 * 1024.0).Floor] else old(pendingTasks)
    {
      var size := (sizeMb * 1024.0 * 1024.0).Floor;
      if memoryBytes + size > Holds.CAP {
        return false;
      }
      pendingTasks := pendingTasks + [size];
      return true;
    }

    /** Allocates a block and touches each of its pages. */
    static method Allocate(size: nat) returns (block: array<Holds.byte>)
      ensures fresh(block) && block[..] == Holds.Touched(size)
      ensures block.Length == size
      ensures forall k | 0 <= k < size :: block[k] == if k % 4096 == 0 then 1 else 0
    {
      block := new Holds.byte[size](_ => 0);
      var i := 0;
      while i < size
        invariant 0 <= i && i % Holds.PAGE == 0
        invariant forall k | 0 <= k < size :: block[k] == if k < i && k % Holds.PAGE == 0 then 1 else 0
        decreases size - i
      {
        block[i] := 1;
        i := i + Holds.PAGE;
      }
    }

    /** The first half of a hold task: up to where it goes to sleep. */
    method StartHold(task: nat)
      requires task < |pendingTasks|
      modifies this`memoryBytes, this`memoryBlocks, this`memoryGauge, this`pendingTasks, this`holdTasks
      ensures Memory() == Holds.Next(old(Memory()), Holds.Start(task))
      ensures memoryBytes == old(memoryBytes) + old(pendingTasks)[task] && memoryGauge == 1
      ensures |memoryBlocks| == old(|memoryBlocks|) + 1
      ensures |memoryBlocks[|memoryBlocks| - 1]| == old(pendingTasks)[task]
    {
      var block := Allocate(pendingTasks[task]);
      memoryBlocks := memoryBlocks + [block[..]];
      memoryBytes := memoryBytes + block.Length;
      memoryGauge := 1;
      holdTasks := holdTasks + [block[..]];
      pendingTasks := pendingTasks[..task] + pendingTasks[task + 1..];
    }

    /** `list.remove`: the first block equal to this one goes; none is no error. */
    method RemoveBlock(block: Holds.Block)
      modifies this`memoryBlocks
      ensures memoryBlocks == Holds.Without(old(memoryBlocks), block)
      ensures block !in old(memoryBlocks) ==> memoryBlocks == old(memoryBlocks)
      ensures block in old(memoryBlocks) ==>
                exists i | 0 <= i < |old(memoryBlocks)| ::
                  old(memoryBlocks)[i] == block && block !in old(memoryBlocks)[..i]
                  && memoryBlocks == old(memoryBlocks)[..i] + old(memoryBlocks)[i + 1..]
    {
      var i := 0;
      while i < |memoryBlocks| && memoryBlocks[i] != block
        invariant 0 <= i <= |memoryBlocks|
        invariant block !in memoryBlocks[..i]
      {
        assert memoryBlocks[..i + 1] == memoryBlocks[..i] + [memoryBlocks[i]];
        i := i + 1;
      }
      Holds.WithoutFirst(memoryBlocks, block, i);
      if i < |memoryBlocks| {
        memoryBlocks := memoryBlocks[..i] + memoryBlocks[i + 1..];
      } else {
        assert memoryBlocks[..i] == memoryBlocks;
      }
    }

    /** The second half, run however the sleep ends. */
    method FinishHold(task: nat)
      requires task < |holdTasks|
      modifies this`memoryBytes, this`memoryBlocks, this`memoryGauge, this`holdTasks
      ensures Memory() == Holds.Next(old(Memory()), Holds.Expire(task))
      ensures var left := old(memoryBytes) - |old(holdTasks)[task]|;
              memoryBytes == (if left > 0 then left else 0)
              && memoryGauge == (if left > 0 then old(memoryGauge) else 0)
    {
      var block := holdTasks[task];
      RemoveBlock(block);
      memoryBytes := if memoryBytes - |block| > 0 then memoryBytes - |block| else 0;
      if memoryBytes <= 0 {
        memoryGauge := 0;
      }
      holdTasks := holdTasks[..task] + holdTasks[task + 1..];
    }

    /** Back to defaults; the hold tasks are left running. */
    method Reset()
      modifies this
      ensures Injector() == Injection.Next(old(Injector()), Injection.Reset)
      ensures Memory() == Holds.Next(old(Memory()), Holds.Reset)
      ensures !errorEnabled && errorRate == 0.0 && errorAccumulator == 0.0
      ensures memoryBytes == 0 && memoryBlocks == [] && memoryGauge == 0
      ensures pendingTasks == old(pendingTasks) && holdTasks == old(holdTasks)
      ensures !latencyEnabled && latencySeconds == 0.0
    {
      latencyEnabled := false;
      latencySeconds := 0.0;
      errorEnabled := false;
      errorRate := 0.0;
      errorAccumulator := 0.0;
      memoryBlocks := [];
      memoryBytes := 0;
      memoryGauge := 0;
    }
  }
}

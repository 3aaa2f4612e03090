/** `Interrupt` as an object: the interrupt level, the pending list and the tick counters,
    updated in place and proved against the functions of the clock. */
module InterruptDevice {
  import opened SortedList
  import opened LinkedList
  import opened Interrupts
  import opened HandlerEffects
  import Cpu

  datatype IntStatus = IntOff | IntOn

  lemma SortedRest(list: seq<Keyed<Pending>>)
    requires Sorted(list)
    ensures list != [] ==> Sorted(list[1..])
  {
  }

  /** User registers after interrupts: the first that fires delivers the pending load. */
  function Delivered(regs: Cpu.Registers, anyFired: bool): Cpu.Registers
    requires LoadPends(regs)
  {
    if anyFired then Cpu.DelayedLoad(regs, 0, 0) else regs
  }

  predicate LoadPends(regs: Cpu.Registers) {
    |regs| == Cpu.NUM_TOTAL_REGS && 0 <= regs[Cpu.LOAD] < 32
  }

  /** The others find nothing to deliver. */
  lemma DeliverOnce(regs: Cpu.Registers, first: bool, later: bool)
    requires LoadPends(regs)
    ensures LoadPends(Delivered(regs, first)) && Delivered(Delivered(regs, first), later) == Delivered(regs, first || later)
  {
  }

  lemma IdleCounters(c: Clock, handlers: Handlers)
    ensures var r := Interrupts.Idle(c, handlers).0;
            r.system == c.system && r.user == c.user && r.total - c.total == r.idle - c.idle
  {
    hide Interrupts.Idle;
    IdleIsExact(c, handlers);
  }

  class Interrupt {
    const handlers: Handlers
    /** The registers of the user-mode machine. */
    const registers: array<int>
    var level: IntStatus
    var status: MachineStatus
    const pending: List<Pending>
    var inHandler: bool
    var yieldOnReturn: bool
    var totalTicks: int
    var idleTicks: int
    var systemTicks: int
    var userTicks: int
    ghost var fired: seq<Firing>
    ghost var scheduled: seq<Pending>
    /** Counts handler invocations, so that each can have its own effect. */
    var firings: nat

    ghost function Model(): Clock
      reads this, pending
    {
      Clock(status, pending.View(), yieldOnReturn, totalTicks, idleTicks, systemTicks, userTicks, fired, scheduled)
    }

    ghost predicate Valid()
      reads this, pending, pending.elements, registers
    {
      pending.Valid() && Sorted(pending.View()) && firings == |fired| && LoadPends(registers[..])
    }

    /** List elements come from the list or are new. */
    twostate predicate Grows()
      reads pending
    {
      fresh(pending.Footprint() - old(pending.Footprint()))
    }

    constructor (handlers: Handlers, registers: array<int>)
      requires LoadPends(registers[..])
      ensures Valid() && Model() == BOOT && level == IntOff && !inHandler && this.handlers == handlers && this.registers == registers && fresh(pending)
    {
      this.handlers, this.registers := handlers, registers;
      pending := new List();
      level, status, inHandler, yieldOnReturn := IntOff, SystemMode, false, false;
      totalTicks, idleTicks, systemTicks, userTicks := 0, 0, 0, 0;
      fired, scheduled, firings := [], [], 0;
    }

    method Schedule(r: Request)
      requires Valid()
      modifies this, pending, pending.Footprint()
      ensures Valid() && Grows() && Model() == Interrupts.Schedule(old(Model()), r)
      ensures scheduled == old(scheduled) + [Pending(r.handler, totalTicks + r.fromNow, r.kind)]
      ensures level == old(level) && inHandler == old(inHandler) && firings == old(firings)
    {
      hide Insert, List.Valid, Sorted, Entries;
      var when := totalTicks + r.fromNow;
      var toOccur := Pending(r.handler, when, r.kind);
      pending.SortedInsert(toOccur, when);
      scheduled := scheduled + [toOccur];
    }

    /** The handler's own calls of `Schedule` and `YieldOnReturn`. */
    method RunHandler(effect: Effect)
      requires Valid() && inHandler
      modifies this, pending, pending.Footprint()
      ensures Valid() && Grows() && level == old(level) && inHandler == old(inHandler) && firings == old(firings)
      ensures Model() == ScheduleAll(old(Model()), effect.requests).(yieldOnReturn := old(yieldOnReturn) || effect.switch)
    {
      hide Insert, List.Valid, Sorted, Entries;
      ghost var start := Model();
      for i := 0 to |effect.requests|
        invariant Valid() && Grows() && level == old(level) && inHandler == old(inHandler) && firings == old(firings) && yieldOnReturn == old(yieldOnReturn)
        invariant ScheduleAll(Model(), effect.requests[i..]) == ScheduleAll(start, effect.requests)
      {
        assert effect.requests[i..][1..] == effect.requests[i + 1..];
        Schedule(effect.requests[i]);
      }
      if effect.switch {
        yieldOnReturn := true;
      }
    }

    /** `machine->DelayedLoad(0, 0)`. */
    method DeliverLoad()
      requires LoadPends(registers[..])
      modifies registers
      ensures registers[..] == Delivered(old(registers[..]), true) && LoadPends(registers[..])
    {
      registers[registers[Cpu.LOAD]] := registers[Cpu.LOAD_VALUE];
      registers[Cpu.LOAD] := 0;
      registers[Cpu.LOAD_VALUE] := 0;
      registers[0] := 0;
    }

    /** Run the handler of an interrupt that has been taken off the list of `c`. */
    method Invoke(toOccur: Pending, ghost c: Clock)
      requires Valid() && level == IntOff && !inHandler
      requires c.pending != [] && c.pending[0].1 == toOccur && Model() == c.(pending := c.pending[1..])
      modifies this, pending, pending.Footprint(), registers
      ensures Valid() && Grows() && level == IntOff && !inHandler
      ensures Model() == Fire(c, handlers)
      ensures yieldOnReturn <==> old(yieldOnReturn) || handlers(old(firings)).switch
      ensures firings == old(firings) + 1 && registers[..] == Delivered(old(registers[..]), true)
    {
      hide ScheduleAll, List.Valid, Sorted, Entries, Insert;
      DeliverLoad();
      var was := status;
      inHandler := true;
      status := SystemMode;
      fired := fired + [Firing(toOccur, totalTicks)];
      firings := firings + 1;
      RunHandler(handlers(firings - 1));
      status := was;
      inHandler := false;
    }

    /** Put an interrupt that is not to be fired back on the list. */
    method PutBack(when: int, toOccur: Pending, ghost c: Clock)
      requires Valid()
      requires c.pending != [] && c.pending[0] == (when, toOccur) && Model() == c.(pending := c.pending[1..])
      modifies this, pending, pending.Footprint()
      ensures Valid() && Grows() && level == old(level) && inHandler == old(inHandler) && firings == old(firings)
      ensures Model() == Interrupts.PutBack(c) && yieldOnReturn == old(yieldOnReturn)
    {
      hide List.Valid, Sorted, Entries, Insert;
      pending.SortedInsert(toOccur, when);
    }

    method CheckIfDue(advanceClock: bool) returns (r: bool)
      requires Valid() && level == IntOff && !inHandler
      modifies this, pending, pending.Footprint(), registers
      ensures Valid() && Grows() && level == IntOff && !inHandler
      ensures (Model(), r) == Interrupts.CheckIfDue(old(Model()), advanceClock, handlers)
      ensures yieldOnReturn <==> old(yieldOnReturn) || (r && handlers(old(firings)).switch)
      ensures firings == old(firings) + (if r then 1 else 0) && registers[..] == Delivered(old(registers[..]), r)
    {
      hide Interrupts.Fire, Interrupts.PutBack, List.Valid, Sorted, Entries;
      SortedRest(pending.View());
      ghost var c := Model();
      var removed := pending.SortedRemove();
      if removed == Nothing {
        return false;
      }
      r := FireOrPutBack(removed.key, removed.item, advanceClock, c);
    }

    /** What becomes of the interrupt taken off the list of `c`. */
    method FireOrPutBack(when: int, toOccur: Pending, advanceClock: bool, ghost c: Clock) returns (r: bool)
      requires Valid() && level == IntOff && !inHandler
      requires c.pending != [] && c.pending[0] == (when, toOccur) && Model() == c.(pending := c.pending[1..])
      modifies this, pending, pending.Footprint(), registers
      ensures Valid() && Grows() && level == IntOff && !inHandler
      ensures (Model(), r) == Interrupts.CheckIfDue(c, advanceClock, handlers)
      ensures yieldOnReturn <==> old(yieldOnReturn) || (r && handlers(old(firings)).switch)
      ensures firings == old(firings) + (if r then 1 else 0) && registers[..] == Delivered(old(registers[..]), r)
    {
      hide Interrupts.Fire, Interrupts.PutBack, List.Valid, Sorted, Entries, Insert, Cpu.DelayedLoad, ScheduleAll;
      if advanceClock && when > totalTicks {
        idleTicks := idleTicks + (when - totalTicks);
        totalTicks := when;
      } else if when > totalTicks {
        PutBack(when, toOccur, c);
        return false;
      }
      ghost var a := Advanced(c, advanceClock);
      assert Model() == a.(pending := a.pending[1..]);
      var empty := pending.IsEmpty();
      if status == IdleMode && toOccur.kind == TimerInt && empty {
        PutBack(when, toOccur, a);
        return false;
      }
      Invoke(toOccur, a);
      return true;
    }

    /** `while (CheckIfDue(FALSE))` of `OneTick` and `Idle`. */
    method FireDue()
      requires Valid() && level == IntOff && !inHandler
      modifies this, pending, pending.Footprint(), registers
      ensures Valid() && Grows() && level == IntOff && !inHandler
      ensures Model() == Drain(old(Model()), handlers)
      ensures firings >= old(firings) && registers[..] == Delivered(old(registers[..]), firings > old(firings))
    {
      hide Fire, Interrupts.PutBack, List.Valid, Sorted, Entries, Cpu.DelayedLoad;
      ghost var start := Model();
      var more := true;
      while more
        invariant Valid() && Grows() && level == IntOff && !inHandler
        invariant firings >= old(firings) && registers[..] == Delivered(old(registers[..]), firings > old(firings))
        invariant if more then Drain(Model(), handlers) == Drain(start, handlers) else Model() == Drain(start, handlers)
        decreases if more then NumDue(pending.View(), totalTicks) + 1 else 0
      {
        ghost var before := Model();
        DeliverOnce(old(registers[..]), firings > old(firings), true);
        more := CheckIfDue(false);
        if more { FireDescends(before, handlers); }
      }
    }

    /** The result tells whether a handler asked for a context switch. */
    method OneTick() returns (mustYield: bool)
      requires Valid() && level == IntOn && !inHandler
      modifies this, pending, pending.Footprint(), registers
      ensures Valid() && Grows() && level == IntOn && !inHandler
      ensures Model() == Interrupts.OneTick(old(Model()), handlers)
      ensures mustYield <==> old(yieldOnReturn) || exists i :: old(firings) <= i < firings && handlers(i).switch
      ensures systemTicks == old(systemTicks) + (if old(status) == SystemMode then 10 else 0)
      ensures userTicks == old(userTicks) + (if old(status) == SystemMode then 0 else 1)
      ensures firings >= old(firings) && registers[..] == Delivered(old(registers[..]), firings > old(firings))
    {
      hide Drain, List.Valid, Sorted, Entries, AskedBetween;
      if status == SystemMode {
        totalTicks := totalTicks + SYSTEM_TICK;
        systemTicks := systemTicks + SYSTEM_TICK;
      } else {
        totalTicks := totalTicks + USER_TICK;
        userTicks := userTicks + USER_TICK;
      }
      level := IntOff;
      assert Model() == Ticked(old(Model()));
      FireDue();
      level := IntOn;
      mustYield := yieldOnReturn;
      TickIsExact(old(Model()), handlers);
      if yieldOnReturn {
        yieldOnReturn := false;
      }
    }

    /** Enabling interrupts advances time. */
    method SetLevel(now: IntStatus) returns (was: IntStatus, mustYield: bool)
      requires Valid() && !inHandler
      modifies this, pending, pending.Footprint(), registers
      ensures Valid() && Grows() && !inHandler && level == now && was == old(level)
      ensures Model() == if now == IntOn && was == IntOff then Interrupts.OneTick(old(Model()), handlers) else old(Model())
      ensures mustYield <==> now == IntOn && was == IntOff && (old(yieldOnReturn) || exists i :: old(firings) <= i < firings && handlers(i).switch)
      ensures firings >= old(firings) && registers[..] == Delivered(old(registers[..]), firings > old(firings))
    {
      hide Drain, List.Valid, Sorted, Entries;
      was, mustYield := level, false;
      level := now;
      if now == IntOn && was == IntOff {
        mustYield := OneTick();
      }
    }

    /** A false result means `Halt`. */
    method Idle() returns (running: bool)
      requires Valid() && level == IntOff && !inHandler
      modifies this, pending, pending.Footprint(), registers
      ensures Valid() && Grows() && level == IntOff && !inHandler
      ensures (Model(), running) == Interrupts.Idle(old(Model()), handlers)
      ensures systemTicks == old(systemTicks) && userTicks == old(userTicks) && totalTicks - old(totalTicks) == idleTicks - old(idleTicks)
      ensures firings >= old(firings) && registers[..] == Delivered(old(registers[..]), firings > old(firings))
    {
      hide Drain, Fire, Interrupts.PutBack, List.Valid, Sorted, Entries, Insert, Interrupts.CheckIfDue, Cpu.DelayedLoad;
      IdleCounters(Model(), handlers);
      status := IdleMode;
      running := CheckIfDue(true);
      if running {
        ghost var before := firings;
        FireDue();
        DeliverOnce(old(registers[..]), true, firings > before);
        yieldOnReturn := false;
        status := SystemMode;
      }
    }
  }
}
